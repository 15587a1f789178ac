/** The tokenizer cache's lock within the lock protocol. A query is lexed once before it
    asks for the database lock and once under it; only the cache's own lock keeps two
    sessions out of the cache at once, and the global-mutex policy switches it off. */
module CacheLock {
  import opened Text
  import opened Statements
  import opened Storage
  import opened EngineModel
  import opened EngineInvariant
  import opened Queries
  import opened LockProtocol
  import opened Serializability

  /** The session is between lock and unlock of the cache. */
  predicate InCache(pc: Pc) {
    pc.Lexing? && (pc.at.InLookup? || pc.at.InStore?)
  }

  /** The cache lock records exactly the session inside. */
  predicate CacheOk(policy: Policy, s: Sys) {
    if CacheLockEnabled(policy) then
      && (s.cacheHolder.Some? ==> s.cacheHolder.value < |s.sessions|)
      && forall t :: 0 <= t < |s.sessions| ==> (s.cacheHolder == Some(t) <==> InCache(s.sessions[t].pc))
    else s.cacheHolder.None?
  }

  lemma LexKeepsCacheOk(policy: Policy, s: Sys, t: nat)
    requires CacheOk(policy, s) && t < |s.sessions| && s.sessions[t].pc.Lexing? && Lex(policy, s, t).Some?
    ensures CacheOk(policy, Lex(policy, s, t).value)
  {
  }

  /** A step elsewhere neither enters nor leaves the cache. */
  lemma OtherStepsKeepOut(policy: Policy, s: Sys, t: nat)
    requires t < |s.sessions| && !s.sessions[t].pc.Lexing? && Advance(policy, s, t).Some?
    ensures var s' := Advance(policy, s, t).value;
            && s'.cacheHolder == s.cacheHolder && s'.sessions == s.sessions[t := s'.sessions[t]]
            && !InCache(s'.sessions[t].pc)
  {
    hide IsFinal, CanLock, Shares;
    if Runs(s.sessions[t].pc) {
      RunsGoOn(s.db, s.sessions[t].query, s.sessions[t].pc);
      hide Run;
    }
  }

  lemma MoveKeepsCacheOk(policy: Policy, s: Sys, t: nat)
    requires CacheOk(policy, s) && t < |s.sessions| && Advance(policy, s, t).Some?
    ensures CacheOk(policy, Advance(policy, s, t).value)
  {
    if s.sessions[t].pc.Lexing? {
      LexKeepsCacheOk(policy, s, t);
    } else {
      OtherStepsKeepOut(policy, s, t);
      hide Advance;
    }
  }

  /** In every reachable state the cache lock is right. */
  lemma {:induction false} RunKeepsCacheOk(policy: Policy, init: State, run: seq<Sys>, events: seq<Event>, n: nat)
    requires IsRun(policy, init, run, events) && n < |run|
    ensures CacheOk(policy, run[n])
  {
    hide Advance;
    if n > 0 {
      RunKeepsCacheOk(policy, init, run, events, n - 1);
      assert Next(policy, run[n - 1], events[n - 1], run[n - 1 + 1]);
      match events[n - 1]
      case Arrives(_, _, _) =>
      case Moves(t) => MoveKeepsCacheOk(policy, run[n - 1], t);
    }
  }

  predicate OneInCache(s: Sys) {
    forall t, u ::
      0 <= t < |s.sessions| && 0 <= u < |s.sessions| && InCache(s.sessions[t].pc) && InCache(s.sessions[u].pc) ==>
        t == u
  }

  ghost predicate AlwaysOneInCache(policy: Policy, init: State) {
    forall run, events, n: nat :: IsRun(policy, init, run, events) && n < |run| ==> OneInCache(run[n])
  }

  /** Without the cache lock: two queries arrive, and each enters the cache before it
      has asked for the database lock. */
  lemma TwoInCacheRun(init: State) returns (run: seq<Sys>, events: seq<Event>)
    ensures IsRun(GlobalMutex, init, run, events) && |run| == 5 && |run[4].sessions| == 2
    ensures run[4].sessions[0].pc == run[4].sessions[1].pc == Lexing(InLookup, false)
  {
    var q := Rejected("Failed to tokenize SQL statement.");
    assert UsesCache(q) by { assert |"Failed to tokenize SQL statement."| != |"SQL statement is empty."|; }
    var s0 := Start(init);
    var s1 := Arrive(s0, q, false, false);
    var s2 := Arrive(s1, q, false, false);
    var s3 := Lex(GlobalMutex, s2, 0).value;
    var s4 := Lex(GlobalMutex, s3, 1).value;
    run, events := [s0, s1, s2, s3, s4], [Arrives(q, false, false), Arrives(q, false, false), Moves(0), Moves(1)];
    forall i | 0 <= i < |events| ensures Next(GlobalMutex, run[i], events[i], run[i + 1]) {
      assert i == 0 || i == 1 || i == 2 || i == 3;
    }
  }

  /** Sessions exclude each other from the cache in every run if and only if the policy
      is the split one. */
  lemma RegionsExcludeExactly(policy: Policy, init: State)
    ensures AlwaysOneInCache(policy, init) <==> policy.SplitRwlock?
  {
    if policy.SplitRwlock? {
      forall run, events, n: nat | IsRun(policy, init, run, events) && n < |run| ensures OneInCache(run[n]) {
        RunKeepsCacheOk(policy, init, run, events, n);
        hide IsRun;
      }
    } else {
      var run, events := TwoInCacheRun(init);
      assert !OneInCache(run[4]);
      hide IsRun;
    }
  }

  /** When two sessions are in the cache, one of them is at its lexing before the
      database lock: if queries were lexed under that lock only, the global mutex would
      keep them apart as well. */
  lemma RacesInvolveTheFirstLexing(policy: Policy, init: State, run: seq<Sys>, events: seq<Event>,
                                   n: nat, t: nat, u: nat)
    requires EngineOk(init) && IsRun(policy, init, run, events) && n < |run|
    requires t < |run[n].sessions| && u < |run[n].sessions| && t != u
    requires InCache(run[n].sessions[t].pc) && InCache(run[n].sessions[u].pc)
    ensures policy.GlobalMutex? && (!run[n].sessions[t].pc.underLock || !run[n].sessions[u].pc.underLock)
  {
    RunKeepsInv(policy, init, run, events, n);
    RunKeepsCacheOk(policy, init, run, events, n);
    hide EngineOk, IsRun, SessionsOk, LogOk, EntriesOk, SettledOk;
    assert LockOk(policy, run[n], t) && LockOk(policy, run[n], u);
  }

  // ---- every query is lexed before the lock and under it -------------------------------------------

  predicate PassedAt(run: seq<Sys>, m: nat, t: nat, pc: Pc) {
    m < |run| && t < |run[m].sessions| && run[m].sessions[t].pc == pc
  }

  /** The session has been at `pc`. */
  ghost predicate Passed(run: seq<Sys>, n: nat, t: nat, pc: Pc) {
    exists m: nat :: m <= n && PassedAt(run, m, t, pc)
  }

  function Misses(session: Session, underLock: bool): (missed: bool) {
    if underLock then session.missesThen else session.missesFirst
  }

  predicate IsAt(pc: Pc, at: CacheStep, underLock: bool) {
    pc == Lexing(at, underLock)
  }

  /** The session is beyond its lexing before the lock, or under it. */
  predicate IsPast(pc: Pc, underLock: bool) {
    if underLock then pc.Ready? || pc.Loaded? || pc.Projected? || pc.Answered? || pc.Done?
    else !(pc.Lexing? && !pc.underLock)
  }

  /** One move changes one session, and only its place and its lock mode. */
  lemma MoveOfSession(policy: Policy, s: Sys, t: nat)
    requires t < |s.sessions| && Advance(policy, s, t).Some?
    ensures var s' := Advance(policy, s, t).value;
            && |s'.sessions| == |s.sessions| && s'.sessions == s.sessions[t := s'.sessions[t]]
            && var session, session' := s.sessions[t], s'.sessions[t];
            && session' == session.(mode := session'.mode, pc := session'.pc)
            && (session.pc.Lexing? ==> session'.pc == NextLexing(session, session.pc.at, session.pc.underLock))
            && (!session.pc.Lexing? && session'.pc.Lexing? ==> session'.pc == Lexing(WantLookup, true))
            && (!session.pc.Lexing? && IsPast(session'.pc, true) && UsesCache(session.query) ==>
                  IsPast(session.pc, true))
  {
    hide IsFinal, CanLock, Shares, CanEnterCache;
    if Runs(s.sessions[t].pc) {
      RunsGoOn(s.db, s.sessions[t].query, s.sessions[t].pc);
      hide Run;
    }
  }

  ghost predicate LexedOk(run: seq<Sys>, n: nat, t: nat, underLock: bool)
    requires n < |run| && t < |run[n].sessions|
  {
    var session := run[n].sessions[t];
    && (IsAt(session.pc, WantStore, underLock) || IsAt(session.pc, InStore, underLock) ==>
          Passed(run, n, t, Lexing(InLookup, underLock)) && Misses(session, underLock))
    && (IsPast(session.pc, underLock) ==>
          && Passed(run, n, t, Lexing(InLookup, underLock))
          && (Misses(session, underLock) ==> Passed(run, n, t, Lexing(InStore, underLock))))
  }

  lemma PassedLater(run: seq<Sys>, n: nat, t: nat, pc: Pc)
    requires 0 < n < |run|
    ensures Passed(run, n, t, pc) <==> Passed(run, n - 1, t, pc) || PassedAt(run, n, t, pc)
  {
    hide PassedAt;
  }

  lemma PassedNow(run: seq<Sys>, n: nat, t: nat)
    requires n < |run| && t < |run[n].sessions|
    ensures Passed(run, n, t, run[n].sessions[t].pc)
  {
    assert PassedAt(run, n, t, run[n].sessions[t].pc);
  }

  /** In every run, a query with a text runs only after it has been looked up in the cache
      twice, before it asked for the database lock and under it, and each time stored if it
      was not there; nothing else is stored. */
  lemma {:induction false} LexedTwice(policy: Policy, init: State, run: seq<Sys>, events: seq<Event>, n: nat, t: nat,
                                      underLock: bool)
    requires IsRun(policy, init, run, events) && n < |run| && t < |run[n].sessions|
    requires run[n].sessions[t].query != Rejected("SQL statement is empty.")
    ensures LexedOk(run, n, t, underLock)
    decreases n
  {
    hide Advance, Passed;
    if n > 0 {
      var s, s' := run[n - 1], run[n - 1 + 1];
      assert Next(policy, s, events[n - 1], s');
      PassedLater(run, n, t, Lexing(InLookup, underLock));
      PassedLater(run, n, t, Lexing(InStore, underLock));
      match events[n - 1]
      case Arrives(_, _, _) =>
        if t < |s.sessions| {
          LexedTwice(policy, init, run, events, n - 1, t, underLock);
        }
      case Moves(u) =>
        MoveOfSession(policy, s, u);
        PassedNow(run, n - 1, t);
        LexedTwice(policy, init, run, events, n - 1, t, underLock);
    }
  }
}
