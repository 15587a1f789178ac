/** What the lock protocol guarantees beyond serial answers: the serial order is the
    order of last lock acquisition and respects real time, readers change nothing, and
    no session can be stuck for ever. */
module LockTheorems {
  import opened Text
  import opened Alphabet
  import opened Statements
  import opened Storage
  import opened EngineModel
  import opened EngineInvariant
  import opened Queries
  import opened LockProtocol
  import opened Serializability
  import opened CacheLock

  // ---- the serial order ------------------------------------------------------------

  /** The last occurrences in `history` of the members of `keep`, in order. */
  function LastOf(history: seq<nat>, keep: set<nat>): (members: seq<nat>) {
    if history == [] then []
    else (if history[0] in keep && history[0] !in history[1..] then [history[0]] else []) + LastOf(history[1..], keep)
  }

  lemma {:induction false} LastOfOneMore(history: seq<nat>, keep: set<nat>, t: nat)
    ensures LastOf(history + [t], keep) == LastOf(history, keep - {t}) + (if t in keep then [t] else [])
  {
    if history == [] {
      assert [t][1..] == [] && history + [t] == [t];
    } else {
      assert (history + [t])[1..] == history[1..] + [t];
      LastOfOneMore(history[1..], keep, t);
    }
  }

  function Logged(s: Sys): (members: set<nat>) {
    set t | t in s.log
  }

  predicate ByLastAcquisition(s: Sys) {
    s.log == LastOf(s.acquired, Logged(s))
  }

  lemma MoveKeepsAcquisitionOrder(policy: Policy, s: Sys, t: nat)
    requires LogOk(s) && ByLastAcquisition(s) && t < |s.sessions| && Advance(policy, s, t).Some?
    ensures ByLastAcquisition(Advance(policy, s, t).value)
  {
    hide Run, IsFinal, CanLock, LastOf;
    var s' := Advance(policy, s, t).value;
    if s'.acquired != s.acquired {
      assert !IsLogged(s.sessions[t], s.db) && s'.acquired == s.acquired + [t];
      LastOfOneMore(s.acquired, Logged(s'), t);
      assert Logged(s') - {t} == Logged(s);
    } else {
      assert s'.log == s.log;
    }
  }

  /** The log lists its sessions in the order of their last lock acquisition. */
  lemma {:induction false} LogIsLastAcquisitionOrder(policy: Policy, init: State, run: seq<Sys>,
                                                     events: seq<Event>, n: nat)
    requires EngineOk(init) && IsRun(policy, init, run, events) && n < |run|
    ensures ByLastAcquisition(run[n])
  {
    hide EngineOk, Advance, LogOk;
    if n > 0 {
      LogIsLastAcquisitionOrder(policy, init, run, events, n - 1);
      assert Next(policy, run[n - 1], events[n - 1], run[n - 1 + 1]);
      RunKeepsInv(policy, init, run, events, n - 1);
      match events[n - 1]
      case Arrives(_, _, _) => assert Logged(run[n]) == Logged(run[n - 1]);
      case Moves(t) => MoveKeepsAcquisitionOrder(policy, run[n - 1], t);
    }
  }

  lemma {:induction false} LogOnlyGrows(policy: Policy, init: State, run: seq<Sys>, events: seq<Event>, m: nat, n: nat)
    requires IsRun(policy, init, run, events) && m <= n < |run|
    ensures run[m].log <= run[n].log && |run[m].sessions| <= |run[n].sessions|
    decreases n - m
  {
    if m < n {
      LogOnlyGrows(policy, init, run, events, m, n - 1);
      assert Next(policy, run[n - 1], events[n - 1], run[n - 1 + 1]);
      hide Run, IsFinal, CanLock;
    }
  }

  /** A query answered before another one arrives comes before it in the serial order. */
  lemma RealTimeOrder(policy: Policy, init: State, run: seq<Sys>, events: seq<Event>, m: nat, n: nat, i: nat, j: nat)
    requires EngineOk(init) && IsRun(policy, init, run, events) && m <= n < |run|
    requires i < |run[n].log| && j < |run[n].log|
    requires run[n].log[i] < |run[m].sessions| && run[m].sessions[run[n].log[i]].pc.Done?
    requires run[n].log[j] >= |run[m].sessions|
    ensures i < j
  {
    hide EngineOk, Advance, IsRun;
    LogOnlyGrows(policy, init, run, events, m, n);
    RunKeepsInv(policy, init, run, events, m);
    RunKeepsInv(policy, init, run, events, n);
    var t := run[n].log[i];
    assert IsLogged(run[m].sessions[t], run[m].db);
    var k :| 0 <= k < |run[m].log| && run[m].log[k] == t;
    assert run[n].log[k] == t;
    hide IsLogged;
    SamePlace(run[n].log, i, k);
    assert run[n].log[..|run[m].log|] == run[m].log;
  }

  lemma SamePlace(log: seq<nat>, i: nat, k: nat)
    requires forall a, b :: 0 <= a < b < |log| ==> log[a] != log[b]
    requires i < |log| && k < |log| && log[i] == log[k]
    ensures i == k
  {
  }

  // ---- readers --------------------------------------------------------------------

  /** From the check on, a session in read mode finds its table loaded, whatever the
      other sessions do, and no step it takes changes the shared tables. */
  lemma ReadersAreSafe(policy: Policy, init: State, run: seq<Sys>, events: seq<Event>, n: nat, t: nat)
    requires EngineOk(init) && IsRun(policy, init, run, events) && n < |run|
    requires t < |run[n].sessions| && run[n].sessions[t].mode.ReadMode?
    ensures var session := run[n].sessions[t];
            Runs(session.pc) ==>
              && IsSelect(session.query)
              && IsLoadedFor(run[n].db.runtime, session.query.stmt.select.table)
    ensures Advance(policy, run[n], t).Some? ==> Advance(policy, run[n], t).value.db == run[n].db
  {
    RunKeepsInv(policy, init, run, events, n);
    hide EngineOk, Advance, IsRun, IsLoadedFor, QueryFits;
    assert SessionOk(run[n].sessions[t], run[n].db);
    if Advance(policy, run[n], t).Some? {
      ChangesAreExclusive(policy, run[n], t);
    }
  }

  /** What a session does with its first lock: a SELECT whose table is not the loaded one,
      under any spelling, gives the read lock back to ask for the write lock, and every
      other query keeps what it has. */
  lemma UpgradesExactly(policy: Policy, init: State, run: seq<Sys>, events: seq<Event>, n: nat, t: nat)
    requires EngineOk(init) && IsRun(policy, init, run, events) && n < |run|
    requires t < |run[n].sessions| && run[n].sessions[t].pc.Locked?
    ensures Advance(policy, run[n], t).Some?
    ensures var s, s' := run[n], Advance(policy, run[n], t).value;
            var query := s.sessions[t].query;
            if s.sessions[t].mode.ReadMode? && IsSelect(query)
               && !(s.db.runtime.loaded && Alike(s.db.runtime.name, query.stmt.select.table))
            then s'.sessions[t].pc.Upgrading? && s'.sessions[t].mode.WriteMode?
                 && t !in s'.readers && s'.writer != Some(t)
            else s'.sessions[t].mode == s.sessions[t].mode && Holds(s'.sessions[t].pc)
                 && s'.readers == s.readers && s'.writer == s.writer
  {
    RunKeepsInv(policy, init, run, events, n);
    assert SessionOk(run[n].sessions[t], run[n].db);
    hide IsRun, EntriesOk, SettledOk, LogOk, LocksOk, SessionsOk, RuntimeOk, HeaderKept, Alike, Upper, QueryFits;
    var session := run[n].sessions[t];
    if IsSelect(session.query) {
      SameNameExactly(run[n].db.runtime.name, session.query.stmt.select.table);
      LoadedHasName(run[n].db);
    }
  }

  lemma LoadedHasName(db: State)
    requires EngineOk(db)
    ensures db.runtime.loaded ==> db.runtime.name != ""
  {
  }

  /** Two sessions with these queries hold the database lock at the same time. */
  predicate HoldTogether(s: Sys, t: nat, u: nat, q: Query, r: Query) {
    && t < |s.sessions| && u < |s.sessions| && t != u
    && s.sessions[t].query == q && s.sessions[u].query == r
    && Holds(s.sessions[t].pc) && Holds(s.sessions[u].pc)
  }

  ghost predicate CanHoldTogether(policy: Policy, init: State, q: Query, r: Query) {
    exists run, events, n: nat, t, u ::
      IsRun(policy, init, run, events) && n < |run| && HoldTogether(run[n], t, u, q, r)
  }

  /** Two holders share the read lock, so both run a SELECT. */
  lemma HoldersAreReaders(policy: Policy, init: State, run: seq<Sys>, events: seq<Event>, n: nat, t: nat, u: nat)
    requires EngineOk(init) && IsRun(policy, init, run, events) && n < |run|
    requires t < |run[n].sessions| && u < |run[n].sessions| && t != u
    requires Holds(run[n].sessions[t].pc) && Holds(run[n].sessions[u].pc)
    ensures policy.SplitRwlock? && IsSelect(run[n].sessions[t].query) && IsSelect(run[n].sessions[u].query)
  {
    RunKeepsInv(policy, init, run, events, n);
    hide EngineOk, IsRun, LogOk, EntriesOk, SettledOk, QueryFits, Holds, IsFinal;
    assert LockOk(policy, run[n], t) && LockOk(policy, run[n], u);
    assert SessionOk(run[n].sessions[t], run[n].db) && SessionOk(run[n].sessions[u], run[n].db);
  }

  /** The step of session `t`, as an event of a run. */
  lemma OneMoreStep(policy: Policy, init: State, run: seq<Sys>, events: seq<Event>, e: Event, s: Sys)
    returns (run': seq<Sys>, events': seq<Event>)
    requires IsRun(policy, init, run, events) && Next(policy, run[|run| - 1], e, s)
    ensures IsRun(policy, init, run', events') && |run'| == |run| + 1 && run'[|run|] == s
  {
    hide Next;
    run', events' := run + [s], events + [e];
    forall i | 0 <= i < |events'| ensures Next(policy, run'[i], events'[i], run'[i + 1]) {
      if i < |events| {
        assert Next(policy, run[i], events[i], run[i + 1]);
      }
    }
  }

  /** A SELECT that has arrived and finds the text in the cache reaches its read lock in
      three steps, if nobody writes. */
  lemma ReachesReadLock(init: State, run: seq<Sys>, events: seq<Event>, t: nat)
    returns (run': seq<Sys>, events': seq<Event>)
    requires IsRun(SplitRwlock, init, run, events) && var s := run[|run| - 1];
      && t < |s.sessions| && IsSelect(s.sessions[t].query) && s.writer.None? && s.cacheHolder.None?
      && s.sessions[t] == Session(s.sessions[t].query, ReadMode, Lexing(WantLookup, false), false, false)
    ensures IsRun(SplitRwlock, init, run', events') && |run'| == |run| + 3
    ensures var s, s' := run[|run| - 1], run'[|run'| - 1];
            && s'.writer.None? && s'.cacheHolder.None? && |s'.sessions| == |s.sessions|
            && s'.sessions[t].query == s.sessions[t].query && s'.sessions[t].pc.Locked?
            && forall u :: 0 <= u < |s.sessions| && u != t ==> s'.sessions[u] == s.sessions[u]
  {
    var s := run[|run| - 1];
    hide IsRun;
    var s1 := Advance(SplitRwlock, s, t).value;
    var s2 := Advance(SplitRwlock, s1, t).value;
    var s3 := Advance(SplitRwlock, s2, t).value;
    run', events' := OneMoreStep(SplitRwlock, init, run, events, Moves(t), s1);
    run', events' := OneMoreStep(SplitRwlock, init, run', events', Moves(t), s2);
    run', events' := OneMoreStep(SplitRwlock, init, run', events', Moves(t), s3);
  }

  lemma SelectsShareTheLock(init: State, q: Query, r: Query) returns (run: seq<Sys>, events: seq<Event>)
    requires QueryFits(q) && QueryFits(r) && IsSelect(q) && IsSelect(r)
    ensures IsRun(SplitRwlock, init, run, events) && |run| == 9 && HoldTogether(run[8], 0, 1, q, r)
  {
    hide QueryFits;
    var s0 := Start(init);
    var s1 := Arrive(s0, q, false, false);
    var s2 := Arrive(s1, r, false, false);
    run, events := [s0, s1, s2], [Arrives(q, false, false), Arrives(r, false, false)];
    forall i | 0 <= i < |events| ensures Next(SplitRwlock, run[i], events[i], run[i + 1]) {
      assert i == 0 || i == 1;
    }
    hide Next, Advance;
    run, events := ReachesReadLock(init, run, events, 0);
    run, events := ReachesReadLock(init, run, events, 1);
  }

  /** Which queries can hold the database lock at the same time: two SELECTs under the
      split policy, and nothing else. */
  lemma HoldTogetherExactly(policy: Policy, init: State, q: Query, r: Query)
    requires EngineOk(init) && QueryFits(q) && QueryFits(r)
    ensures CanHoldTogether(policy, init, q, r) <==> policy.SplitRwlock? && IsSelect(q) && IsSelect(r)
  {
    hide IsRun, EngineOk, QueryFits, Holds;
    if run, events, n: nat, t, u :|
      IsRun(policy, init, run, events) && n < |run| && HoldTogether(run[n], t, u, q, r)
    {
      HoldersAreReaders(policy, init, run, events, n, t, u);
    }
    if policy.SplitRwlock? && IsSelect(q) && IsSelect(r) {
      var run, events := SelectsShareTheLock(init, q, r);
      assert HoldTogether(run[8], 0, 1, q, r);
    }
  }

  // ---- progress ---------------------------------------------------------------------

  /** A session that holds the database lock is stuck at most at the cache. */
  lemma HoldersMove(policy: Policy, s: Sys, init: State, t: nat)
    requires Inv(policy, s, init) && t < |s.sessions| && Holds(s.sessions[t].pc) && CanEnterCache(policy, s)
    ensures Advance(policy, s, t).Some?
  {
    if Runs(s.sessions[t].pc) {
      hide After, Order, EngineOk, Run, LocksOk, SettledOk, EntriesOk;
      var before := BeforeOf(s, init, t);
      assert SessionOk(s.sessions[t], s.db);
      RunStepIsOk(s.sessions[t], s.db, before);
    }
  }

  /** While nobody is in the cache, its lock is free. */
  lemma FreeCache(policy: Policy, s: Sys)
    requires CacheOk(policy, s) && forall c :: 0 <= c < |s.sessions| ==> !InCache(s.sessions[c].pc)
    ensures CanEnterCache(policy, s)
  {
  }

  /** No deadlock between the two locks: while some query is unanswered, some session can
      move. Whoever is in the cache can leave it; with the cache free, whoever holds the
      database lock can go on; with both free, anybody can. */
  lemma NeverStuck(policy: Policy, init: State, run: seq<Sys>, events: seq<Event>, n: nat, t: nat)
    requires EngineOk(init) && IsRun(policy, init, run, events) && n < |run|
    requires t < |run[n].sessions| && !run[n].sessions[t].pc.Done?
    ensures exists u :: 0 <= u < |run[n].sessions| && Advance(policy, run[n], u).Some?
  {
    hide EngineOk, After, Order, IsRun, Run, SettledOk, EntriesOk;
    RunKeepsInv(policy, init, run, events, n);
    RunKeepsCacheOk(policy, init, run, events, n);
    var s := run[n];
    if c :| 0 <= c < |s.sessions| && InCache(s.sessions[c].pc) {
      assert Advance(policy, s, c).Some?;
    } else {
      FreeCache(policy, s);
      if h :| 0 <= h < |s.sessions| && Holds(s.sessions[h].pc) {
        HoldersMove(policy, s, init, h);
      } else {
        FreeLock(policy, s);
        assert Advance(policy, s, t).Some?;
      }
    }
  }

  lemma FreeLock(policy: Policy, s: Sys)
    requires LocksOk(policy, s) && forall h :: 0 <= h < |s.sessions| ==> !Holds(s.sessions[h].pc)
    ensures s.writer.None? && s.readers == {}
  {
    forall h | 0 <= h < |s.sessions| ensures h !in s.readers && s.writer != Some(h) {
      assert LockOk(policy, s, h);
    }
  }

  function StepsLeft(pc: Pc): (n: nat) {
    match pc
    case Lexing(at, underLock) =>
      (if underLock then 4 else 11)
        + (match at case WantLookup => 4 case InLookup => 3 case WantStore => 2 case InStore => 1)
    case Waiting => 11
    case Locked => 10
    case Upgrading => 9
    case Ready => 4
    case Loaded => 3
    case Projected(_) => 2
    case Answered(_) => 1
    case Done(_) => 0
  }

  function TotalLeft(sessions: seq<Session>): (n: nat) {
    if sessions == [] then 0 else TotalLeft(sessions[..|sessions| - 1]) + StepsLeft(sessions[|sessions| - 1].pc)
  }

  lemma {:induction false} OneSessionLess(sessions: seq<Session>, t: nat, session: Session)
    requires t < |sessions| && StepsLeft(session.pc) < StepsLeft(sessions[t].pc)
    ensures TotalLeft(sessions[t := session]) < TotalLeft(sessions)
  {
    var n := |sessions| - 1;
    if t < n {
      OneSessionLess(sessions[..n], t, session);
      assert sessions[t := session][..n] == sessions[..n][t := session];
    } else {
      assert sessions[t := session][..n] == sessions[..n];
    }
  }

  lemma LexUsesAStep(policy: Policy, s: Sys, t: nat)
    requires t < |s.sessions| && s.sessions[t].pc.Lexing? && Lex(policy, s, t).Some?
    ensures StepsLeft(Lex(policy, s, t).value.sessions[t].pc) < StepsLeft(s.sessions[t].pc)
  {
  }

  lemma RunUsesAStep(db: State, q: Query, pc: Pc)
    requires Run(db, q, pc).Some?
    ensures StepsLeft(Run(db, q, pc).value.1) < StepsLeft(pc)
  {
    hide Prepare, InsertRow, SelectFrom, Rectangular;
  }

  lemma MoveUsesAStep(policy: Policy, s: Sys, t: nat)
    requires t < |s.sessions| && Advance(policy, s, t).Some?
    ensures var s' := Advance(policy, s, t).value;
            && s'.sessions == s.sessions[t := s'.sessions[t]]
            && StepsLeft(s'.sessions[t].pc) < StepsLeft(s.sessions[t].pc)
  {
    hide Run, Lex, IsFinal, CanLock, Shares;
    var session := s.sessions[t];
    if session.pc.Lexing? {
      LexIs(policy, s, t);
      LexUsesAStep(policy, s, t);
      hide StepsLeft;
    } else if Runs(session.pc) {
      RunUsesAStep(s.db, session.query, session.pc);
      hide StepsLeft;
    }
  }

  function Moved(events: seq<Event>): (n: nat) {
    if events == [] then 0 else Moved(events[..|events| - 1]) + (if events[|events| - 1].Moves? then 1 else 0)
  }

  lemma ArrivalAdds(sessions: seq<Session>, session: Session)
    requires StepsLeft(session.pc) <= 15
    ensures TotalLeft(sessions + [session]) <= TotalLeft(sessions) + 15
  {
    assert (sessions + [session])[..|sessions|] == sessions;
  }

  lemma FirstSteps(q: Query)
    ensures StepsLeft(FirstPc(q, false)) <= 15
  {
  }

  lemma EventCounted(policy: Policy, s: Sys, e: Event, s': Sys)
    requires Next(policy, s, e, s')
    ensures TotalLeft(s'.sessions) + (if e.Moves? then 1 else 0)
         <= TotalLeft(s.sessions) + 15 * (|s'.sessions| - |s.sessions|)
  {
    hide Advance, QueryFits, StepsLeft, FirstPc, TotalLeft;
    match e
    case Arrives(query, _, _) =>
      FirstSteps(query);
      ArrivalAdds(s.sessions, s'.sessions[|s.sessions|]);
    case Moves(t) =>
      MoveUsesAStep(policy, s, t);
      OneSessionLess(s.sessions, t, s'.sessions[t]);
  }

  /** Every query needs at most fifteen steps, so no run goes on for ever without new
      queries: together with `NeverStuck`, every query is answered in the end. */
  lemma {:induction false} RunsAreBounded(policy: Policy, init: State, run: seq<Sys>, events: seq<Event>, n: nat)
    requires IsRun(policy, init, run, events) && n < |run|
    ensures Moved(events[..n]) + TotalLeft(run[n].sessions) <= 15 * |run[n].sessions|
  {
    if n > 0 {
      hide TotalLeft, Next;
      RunsAreBounded(policy, init, run, events, n - 1);
      assert events[..n][..n - 1] == events[..n - 1];
      assert Next(policy, run[n - 1], events[n - 1], run[n - 1 + 1]);
      EventCounted(policy, run[n - 1], events[n - 1], run[n]);
    }
  }
}
