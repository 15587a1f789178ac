/** The statement cache under any interleaving of sessions: `tokenizer_tokenize` looks
    the text up in one region, lexes it outside, and stores the tokens in another region
    (src/db/tokenizer.c). */
module CacheSessions {
  import opened Text
  import opened Tokenizer
  import opened TokenizerCaches
  import opened CacheRecency

  datatype Item = Item(sql: string, tokens: seq<Token>)

  datatype Pc = AtLookup | AtLexing | AtStore(tokens: seq<Token>) | Answered(answer: Option<seq<Token>>)

  datatype Session = Session(text: string, pc: Pc)

  datatype Sys = Sys(items: seq<Item>, sessions: seq<Session>)

  datatype Event = Arrives(text: string) | Moves(t: nat)

  function Keys(items: seq<Item>): (keys: seq<string>)
    ensures |keys| == |items|
  {
    seq(|items|, i requires 0 <= i < |items| => items[i].sql)
  }

  function StoredItem(items: seq<Item>, item: Item): (stored: seq<Item>) {
    var grown := [item] + items;
    if |grown| > CACHE_LIMIT then grown[..|grown| - 1] else grown
  }

  /** One region of a session, or the lexing between them. */
  function Advance(s: Sys, t: nat): (next: Option<Sys>)
    requires t < |s.sessions|
  {
    var session := s.sessions[t];
    var key := Trimmed(session.text);
    match session.pc
    case AtLookup =>
      var i := IndexOf(Keys(s.items), key);
      if key == "" then Some(s.(sessions := s.sessions[t := session.(pc := Answered(None))]))
      else if i.None? then Some(s.(sessions := s.sessions[t := session.(pc := AtLexing)]))
      else Some(Sys(ToFront(s.items, i.value),
        s.sessions[t := session.(pc := Answered(Some(s.items[i.value].tokens)))]))
    case AtLexing =>
      var tokens := Tokenize(key);
      Some(s.(sessions := s.sessions[t :=
        session.(pc := if tokens.None? then Answered(None) else AtStore(tokens.value))]))
    case AtStore(tokens) =>
      Some(Sys(StoredItem(s.items, Item(key, tokens)), s.sessions[t := session.(pc := Answered(Some(tokens)))]))
    case Answered(_) => None
  }

  predicate Next(s: Sys, e: Event, s': Sys) {
    match e
    case Arrives(text) => s' == s.(sessions := s.sessions + [Session(text, AtLookup)])
    case Moves(t) => t < |s.sessions| && Advance(s, t) == Some(s')
  }

  predicate IsRun(run: seq<Sys>, events: seq<Event>) {
    && |run| == |events| + 1 && run[0] == Sys([], [])
    && forall i :: 0 <= i < |events| ==> Next(run[i], events[i], run[i + 1])
  }

  // ---- the machine's list is the object's ------------------------------------------------

  lemma KeysToFront(items: seq<Item>, i: nat)
    requires i < |items|
    ensures Keys(ToFront(items, i)) == ToFront(Keys(items), i)
  {
  }

  lemma KeysStored(items: seq<Item>, item: Item)
    ensures Keys(StoredItem(items, item)) == Stored(Keys(items), item.sql)
  {
  }

  /** The machine changes its list as the object's `Lookup` and `Store` change theirs. */
  lemma StepsAreTheObjects(s: Sys, t: nat)
    requires t < |s.sessions| && Advance(s, t).Some?
    ensures var keys, key := Keys(s.items), Trimmed(s.sessions[t].text);
            Keys(Advance(s, t).value.items)
            == match s.sessions[t].pc
               case AtLookup => if key == "" then keys else LookedUp(keys, key)
               case AtStore(_) => Stored(keys, key)
               case _ => keys
  {
    hide Trimmed, Tokenize, IndexOf, Keys, StoredItem;
    var session := s.sessions[t];
    var key := Trimmed(session.text);
    if session.pc.AtLookup? && key != "" {
      var i := IndexOf(Keys(s.items), key);
      if i.Some? {
        KeysToFront(s.items, i.value);
      }
    } else if session.pc.AtStore? {
      KeysStored(s.items, Item(key, session.pc.tokens));
    }
  }

  // ---- the cache cannot be observed --------------------------------------------------------

  predicate ItemsOk(items: seq<Item>) {
    |items| <= CACHE_LIMIT && forall i :: 0 <= i < |items| ==> Tokenize(items[i].sql) == Some(items[i].tokens)
  }

  predicate SessionOk(session: Session) {
    match session.pc
    case AtLookup => true
    case AtLexing => Trimmed(session.text) != ""
    case AtStore(tokens) => Trimmed(session.text) != "" && Tokenize(Trimmed(session.text)) == Some(tokens)
    case Answered(answer) => answer == TokenizeText(session.text)
  }

  predicate Inv(s: Sys) {
    ItemsOk(s.items) && forall t :: 0 <= t < |s.sessions| ==> SessionOk(s.sessions[t])
  }

  lemma MoveKeepsInv(s: Sys, t: nat)
    requires Inv(s) && t < |s.sessions| && Advance(s, t).Some?
    ensures Inv(Advance(s, t).value)
  {
    hide Tokenize, Trimmed;
    assert SessionOk(s.sessions[t]);
  }

  lemma {:induction false} RunKeepsInv(run: seq<Sys>, events: seq<Event>, n: nat)
    requires IsRun(run, events) && n < |run|
    ensures Inv(run[n])
  {
    hide Advance, ItemsOk;
    if n == 0 {
      assert ItemsOk([]) by { EmptyIsOk(); }
    } else {
      RunKeepsInv(run, events, n - 1);
      assert Next(run[n - 1], events[n - 1], run[n - 1 + 1]);
      match events[n - 1]
      case Arrives(_) =>
      case Moves(t) => MoveKeepsInv(run[n - 1], t);
    }
  }

  lemma EmptyIsOk()
    ensures ItemsOk([])
  {
  }

  /** Under every interleaving each answer is the one without a cache, every entry holds
      the tokens of its statement, and there are at most 64. */
  lemma CacheIsInvisible(run: seq<Sys>, events: seq<Event>, n: nat)
    requires IsRun(run, events) && n < |run|
    ensures forall t :: 0 <= t < |run[n].sessions| && run[n].sessions[t].pc.Answered? ==>
              run[n].sessions[t].pc.answer == TokenizeText(run[n].sessions[t].text)
    ensures |run[n].items| <= 64
    ensures forall i :: 0 <= i < |run[n].items| ==> Tokenize(run[n].items[i].sql) == Some(run[n].items[i].tokens)
  {
    RunKeepsInv(run, events, n);
    hide IsRun, TokenizeText, Tokenize;
    forall t | 0 <= t < |run[n].sessions| && run[n].sessions[t].pc.Answered?
      ensures run[n].sessions[t].pc.answer == TokenizeText(run[n].sessions[t].text)
    {
      assert SessionOk(run[n].sessions[t]);
    }
  }

  // ---- repeated statements ---------------------------------------------------------------------

  /** The part of the list that a store keeps. */
  function Kept(keys: seq<string>): (kept: seq<string>) {
    if |keys| < CACHE_LIMIT then keys else keys[..CACHE_LIMIT - 1]
  }

  lemma StoreIsKept(keys: seq<string>, key: string)
    requires |keys| <= CACHE_LIMIT
    ensures Stored(keys, key) == [key] + Kept(keys)
  {
  }

  lemma ConsDistinct(key: string, keys: seq<string>)
    ensures Distinct([key] + keys) <==> Distinct(keys) && key !in keys
  {
    var all := [key] + keys;
    if Distinct(all) {
      forall i, j | 0 <= i < j < |keys| ensures keys[i] != keys[j] {
        assert all[i + 1] == keys[i] && all[j + 1] == keys[j];
      }
      forall i | 0 <= i < |keys| ensures keys[i] != key {
        assert all[0] != all[i + 1];
      }
    }
  }

  lemma FrontMovedDistinct(keys: seq<string>, i: nat)
    requires Distinct(keys) && i < |keys|
    ensures Distinct(ToFront(keys, i))
  {
    var moved := ToFront(keys, i);
    forall a, b | 0 <= a < b < |moved| ensures moved[a] != moved[b] {
      assert moved[b] == keys[if b <= i then b - 1 else b];
      assert moved[a] == keys[if a == 0 then i else if a <= i then a - 1 else a];
    }
  }

  /** No store finds its statement in the part of the list that it keeps. */
  predicate IsClean(s: Sys, e: Event) {
    e.Moves? && e.t < |s.sessions| && s.sessions[e.t].pc.AtStore? ==>
      Trimmed(s.sessions[e.t].text) !in Kept(Keys(s.items))
  }

  lemma StepDistinctExactly(s: Sys, e: Event, s': Sys)
    requires Next(s, e, s') && Distinct(Keys(s.items)) && |s.items| <= CACHE_LIMIT
    ensures Distinct(Keys(s'.items)) <==> IsClean(s, e)
  {
    hide Advance, Distinct, Keys, Trimmed, Kept, Stored;
    if e.Moves? {
      StepsAreTheObjects(s, e.t);
      var keys, session := Keys(s.items), s.sessions[e.t];
      var key := Trimmed(session.text);
      if session.pc.AtStore? {
        StoreIsKept(keys, key);
        ConsDistinct(key, Kept(keys));
        KeptDistinct(keys);
      } else if session.pc.AtLookup? && IndexOf(keys, key).Some? {
        FrontMovedDistinct(keys, IndexOf(keys, key).value);
      }
    }
  }

  lemma KeptDistinct(keys: seq<string>)
    requires Distinct(keys)
    ensures Distinct(Kept(keys))
  {
  }

  predicate DistinctThroughout(run: seq<Sys>) {
    forall n :: 0 <= n < |run| ==> Distinct(Keys(run[n].items))
  }

  predicate AllClean(run: seq<Sys>, events: seq<Event>)
    requires |run| == |events| + 1
  {
    forall i :: 0 <= i < |events| ==> IsClean(run[i], events[i])
  }

  lemma {:induction false} CleanSoFar(run: seq<Sys>, events: seq<Event>, n: nat)
    requires IsRun(run, events) && AllClean(run, events) && n < |run|
    ensures Distinct(Keys(run[n].items))
  {
    hide IsClean, Distinct, Next;
    if n == 0 {
      assert Distinct(Keys([])) by { EmptyIsDistinct(); }
    } else {
      CleanSoFar(run, events, n - 1);
      RunKeepsInv(run, events, n - 1);
      assert Next(run[n - 1], events[n - 1], run[n - 1 + 1]) && IsClean(run[n - 1], events[n - 1]);
      StepDistinctExactly(run[n - 1], events[n - 1], run[n]);
    }
  }

  lemma EmptyIsDistinct()
    ensures Distinct(Keys([]))
  {
  }

  /** The list is free of repetitions throughout a run exactly when no store finds its
      statement there. */
  lemma DistinctExactly(run: seq<Sys>, events: seq<Event>)
    requires IsRun(run, events)
    ensures DistinctThroughout(run) <==> AllClean(run, events)
  {
    hide IsClean, Distinct, Next;
    if AllClean(run, events) {
      forall n | 0 <= n < |run| ensures Distinct(Keys(run[n].items)) {
        CleanSoFar(run, events, n);
      }
    }
    if DistinctThroughout(run) {
      forall i | 0 <= i < |events| ensures IsClean(run[i], events[i]) {
        RunKeepsInv(run, events, i);
        assert Next(run[i], events[i], run[i + 1]);
        StepDistinctExactly(run[i], events[i], run[i + 1]);
      }
    }
  }

  // ---- where a repetition comes from ---------------------------------------------------------------

  /** At event `j`, session `t` looks `key` up and does not find it. */
  predicate MissesAt(run: seq<Sys>, events: seq<Event>, j: nat, t: nat, key: string)
    requires |run| == |events| + 1
  {
    && j < |events| && events[j] == Moves(t) && t < |run[j].sessions| && t < |run[j + 1].sessions|
    && run[j].sessions[t].pc.AtLookup? && run[j + 1].sessions[t].pc.AtLexing?
    && Trimmed(run[j].sessions[t].text) == key && key !in Keys(run[j].items)
  }

  /** At event `i`, session `t` stores `key`. */
  predicate StoresAt(run: seq<Sys>, events: seq<Event>, i: nat, t: nat, key: string)
    requires |run| == |events| + 1
  {
    && i < |events| && events[i] == Moves(t) && t < |run[i].sessions|
    && run[i].sessions[t].pc.AtStore? && Trimmed(run[i].sessions[t].text) == key
  }

  /** Two sessions are between a miss and a store of `key` at the same time: `t` from `j`
      to `i` and `u` from `l` to `k`. */
  predicate Overlapping(run: seq<Sys>, events: seq<Event>, key: string, t: nat, j: nat, i: nat, u: nat, l: nat, k: nat)
    requires |run| == |events| + 1
  {
    && t != u && j < k < i && l < k
    && MissesAt(run, events, j, t, key) && StoresAt(run, events, i, t, key)
    && MissesAt(run, events, l, u, key) && StoresAt(run, events, k, u, key)
  }

  /** A step gives a session no other text, and never leads back from an answer. */
  lemma StepIsForward(s: Sys, e: Event, s': Sys, t: nat)
    requires Next(s, e, s') && t < |s.sessions|
    ensures t < |s'.sessions| && s'.sessions[t].text == s.sessions[t].text
    ensures e == Moves(t) || s'.sessions[t] == s.sessions[t]
    ensures s.sessions[t].pc.Answered? ==> s'.sessions[t].pc.Answered?
    ensures s.sessions[t].pc.AtStore? && e == Moves(t) ==> s'.sessions[t].pc.Answered?
  {
    hide Tokenize, Trimmed, IndexOf, StoredItem, ToFront;
  }

  /** A session that lexes or is about to store has missed. */
  lemma {:induction false} HasMissed(run: seq<Sys>, events: seq<Event>, n: nat, t: nat) returns (j: nat)
    requires IsRun(run, events) && n < |run| && t < |run[n].sessions|
    requires run[n].sessions[t].pc.AtLexing? || run[n].sessions[t].pc.AtStore?
    ensures j < n && MissesAt(run, events, j, t, Trimmed(run[n].sessions[t].text))
    ensures forall m :: j < m <= n ==>
              t < |run[m].sessions| && (run[m].sessions[t].pc.AtLexing? || run[m].sessions[t].pc.AtStore?)
  {
    hide Tokenize, Trimmed, IndexOf, StoredItem, ToFront, Keys;
    assert Next(run[n - 1], events[n - 1], run[n - 1 + 1]);
    if t < |run[n - 1].sessions| {
      StepIsForward(run[n - 1], events[n - 1], run[n], t);
      if run[n - 1].sessions[t].pc.AtLookup? {
        j := n - 1;
        MissIsOne(run[j], t);
      } else {
        j := HasMissed(run, events, n - 1, t);
      }
    }
  }

  lemma MissIsOne(s: Sys, t: nat)
    requires t < |s.sessions| && s.sessions[t].pc.AtLookup? && Advance(s, t).Some?
    requires Advance(s, t).value.sessions[t].pc.AtLexing?
    ensures Trimmed(s.sessions[t].text) !in Keys(s.items) && Advance(s, t).value.items == s.items
  {
    hide Trimmed, Tokenize, Keys;
  }

  /** A key comes into the list by a store of it. */
  lemma {:induction false} KeyWasStored(run: seq<Sys>, events: seq<Event>, m: nat, n: nat, key: string)
    returns (k: nat, u: nat)
    requires IsRun(run, events) && m <= n < |run| && key !in Keys(run[m].items) && key in Keys(run[n].items)
    ensures m <= k < n && StoresAt(run, events, k, u, key)
    decreases n - m
  {
    hide Next, Keys, Trimmed;
    if key in Keys(run[n - 1].items) {
      k, u := KeyWasStored(run, events, m, n - 1, key);
    } else {
      assert Next(run[n - 1], events[n - 1], run[n - 1 + 1]);
      k := n - 1;
      u := NewKeyIsStored(run[k], events[k], run[n], key);
    }
  }

  lemma NewKeyIsStored(s: Sys, e: Event, s': Sys, key: string) returns (u: nat)
    requires Next(s, e, s') && key !in Keys(s.items) && key in Keys(s'.items)
    ensures e == Moves(u) && u < |s.sessions| && s.sessions[u].pc.AtStore? && Trimmed(s.sessions[u].text) == key
  {
    hide Advance, Keys, Trimmed, IndexOf;
    u := e.t;
    StepsAreTheObjects(s, u);
  }

  /** A store that finds its statement in the list overlaps with another one. */
  lemma UncleanStoreOverlaps(run: seq<Sys>, events: seq<Event>, i: nat)
    returns (key: string, t: nat, j: nat, u: nat, l: nat, k: nat)
    requires IsRun(run, events) && i < |events| && !IsClean(run[i], events[i])
    ensures Overlapping(run, events, key, t, j, i, u, l, k)
  {
    hide Keys, Trimmed;
    t := events[i].t;
    key := Trimmed(run[i].sessions[t].text);
    j := HasMissed(run, events, i, t);
    assert Next(run[j], events[j], run[j + 1]);
    MissIsOne(run[j], t);
    k, u := KeyWasStored(run, events, j + 1, i, key);
    assert Next(run[k], events[k], run[k + 1]);
    StepIsForward(run[k], events[k], run[k + 1], u);
    l := HasMissed(run, events, k, u);
  }

  /** Two sessions that have missed one statement at the same time are the only way to
      repeat it in the list. */
  lemma RepeatsNeedOverlap(run: seq<Sys>, events: seq<Event>)
    returns (key: string, t: nat, j: nat, i: nat, u: nat, l: nat, k: nat)
    requires IsRun(run, events) && !DistinctThroughout(run)
    ensures Overlapping(run, events, key, t, j, i, u, l, k)
  {
    hide IsClean, Next, DistinctThroughout, Overlapping;
    DistinctExactly(run, events);
    i :| 0 <= i < |events| && !IsClean(run[i], events[i]);
    key, t, j, u, l, k := UncleanStoreOverlaps(run, events, i);
  }

  /** Two sessions that look up one statement before either has stored it leave it in
      the list twice. */
  lemma InterleavedMissesDuplicate(text: string) returns (run: seq<Sys>, events: seq<Event>)
    requires TokenizeText(text).Some?
    ensures IsRun(run, events) && |run| == 9 && Keys(run[8].items) == [Trimmed(text), Trimmed(text)]
    ensures |run[8].sessions| == 2 && run[8].sessions[0].pc.Answered? && run[8].sessions[1].pc.Answered?
  {
    hide Tokenize, Trimmed;
    var key, tokens := Trimmed(text), TokenizeText(text).value;
    var item := Item(key, tokens);
    var a, b, c, d := Session(text, AtLookup), Session(text, AtLexing), Session(text, AtStore(tokens)),
      Session(text, Answered(Some(tokens)));
    run := [Sys([], []), Sys([], [a]), Sys([], [a, a]), Sys([], [b, a]), Sys([], [b, b]), Sys([], [c, b]),
            Sys([], [c, c]), Sys([item], [d, c]), Sys([item, item], [d, d])];
    events := [Arrives(text), Arrives(text), Moves(0), Moves(1), Moves(0), Moves(1), Moves(0), Moves(1)];
    assert Keys([]) == [] && Keys([item, item]) == [key, key];
    assert [] + [a] == [a] && [a] + [a] == [a, a];
    assert [a, a][0 := b] == [b, a] && [b, a][1 := b] == [b, b] && [b, b][0 := c] == [c, b] && [c, b][1 := c] == [c, c];
    assert [c, c][0 := d] == [d, c] && [d, c][1 := d] == [d, d];
    assert StoredItem([], item) == [item] && StoredItem([item], item) == [item, item];
    forall i | 0 <= i < |events| ensures Next(run[i], events[i], run[i + 1]) {
      assert i == 0 || i == 1 || i == 2 || i == 3 || i == 4 || i == 5 || i == 6 || i == 7;
    }
  }
}
