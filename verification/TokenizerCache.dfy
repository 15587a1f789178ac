/** The tokenizer's statement cache (src/db/tokenizer.c): a singly linked list with the
    most recently used statement first and at most 64 entries. Lookup and store are one
    region each under the cache mutex. */
module TokenizerCaches {
  import opened Text
  import opened Tokenizer

  const CACHE_LIMIT: nat := 64

  // ---- what the list means ------------------------------------------------------------

  function IndexOf(keys: seq<string>, key: string): (found: Option<nat>)
    ensures found.None? <==> key !in keys
    ensures found.Some? ==> found.value < |keys| && keys[found.value] == key && key !in keys[..found.value]
  {
    if keys == [] then None
    else if keys[0] == key then Some(0)
    else
      var rest := IndexOf(keys[1..], key);
      if rest.None? then None else Some(rest.value + 1)
  }

  function ToFront<T>(xs: seq<T>, i: nat): (list: seq<T>)
    requires i < |xs|
  {
    [xs[i]] + xs[..i] + xs[i + 1..]
  }

  function LookedUp(keys: seq<string>, key: string): (texts: seq<string>) {
    var i := IndexOf(keys, key);
    if i.None? then keys else ToFront(keys, i.value)
  }

  function Stored(keys: seq<string>, key: string): (texts: seq<string>) {
    var grown := [key] + keys;
    if |grown| > CACHE_LIMIT then grown[..|grown| - 1] else grown
  }

  /** `tokenizer_tokenize` without a cache. */
  function TokenizeText(sql: string): (tokens: Option<seq<Token>>) {
    if Trimmed(sql) == "" then None else Tokenize(Trimmed(sql))
  }

  // ---- the list ---------------------------------------------------------------------------

  class Entry {
    const sql: string
    const tokens: seq<Token>
    var next: Entry?

    constructor (sql: string, tokens: seq<Token>, next: Entry?)
      ensures this.sql == sql && this.tokens == tokens && this.next == next
    {
      this.sql, this.tokens, this.next := sql, tokens, next;
    }
  }

  /** The entries hang together in this order. */
  ghost predicate Linked(entries: seq<Entry>)
    reads entries
  {
    && (forall i, j :: 0 <= i < j < |entries| ==> entries[i] != entries[j])
    && forall i :: 0 <= i < |entries| ==> entries[i].next == NextIn(entries, i)
  }

  function NextIn(entries: seq<Entry>, i: nat): (entry: Entry?)
    requires i < |entries|
  {
    if i + 1 < |entries| then entries[i + 1] else null
  }

  /** The links that moving entry `i` to the front needs: its own, and the one before it. */
  lemma ToFrontNext(entries: seq<Entry>, i: nat, k: nat)
    requires 0 < i < |entries| && k < |entries|
    ensures var after := ToFront(entries, i);
            && |after| == |entries|
            && (k == 0 ==> after[k] == entries[i] && NextIn(after, k) == entries[0])
            && (0 < k < i ==> after[k] == entries[k - 1] && NextIn(after, k) == NextIn(entries, k - 1))
            && (k == i ==> after[k] == entries[i - 1] && NextIn(after, k) == NextIn(entries, i))
            && (k > i ==> after[k] == entries[k] && NextIn(after, k) == NextIn(entries, k))
  {
  }

  lemma ToFrontDistinct(entries: seq<Entry>, i: nat)
    requires i < |entries| && forall a, b :: 0 <= a < b < |entries| ==> entries[a] != entries[b]
    ensures var after := ToFront(entries, i); forall a, b :: 0 <= a < b < |after| ==> after[a] != after[b]
  {
  }

  function KeysOf(entries: seq<Entry>): (keys: seq<string>)
    ensures |keys| == |entries|
    ensures forall i :: 0 <= i < |keys| ==> keys[i] == entries[i].sql
  {
    seq(|entries|, i requires 0 <= i < |entries| => entries[i].sql)
  }

  predicate AllCorrect(entries: seq<Entry>) {
    forall i :: 0 <= i < |entries| ==> Tokenize(entries[i].sql) == Some(entries[i].tokens)
  }

  function HeadOf(entries: seq<Entry>): (entry: Entry?) {
    if entries == [] then null else entries[0]
  }

  lemma KeysToFront(entries: seq<Entry>, i: nat)
    requires i < |entries|
    ensures KeysOf(ToFront(entries, i)) == ToFront(KeysOf(entries), i)
    ensures AllCorrect(entries) ==> AllCorrect(ToFront(entries, i))
    ensures forall e :: e in ToFront(entries, i) ==> e in entries
  {
  }

  lemma {:induction false} FirstIndex(keys: seq<string>, key: string, i: nat)
    requires i < |keys| && keys[i] == key && key !in keys[..i]
    ensures IndexOf(keys, key) == Some(i)
  {
    if i > 0 {
      assert keys[..i][0] == keys[0] && keys[1..][..i - 1] == keys[..i][1..];
      FirstIndex(keys[1..], key, i - 1);
    }
  }

  lemma CutCorrect(entries: seq<Entry>, n: nat)
    requires AllCorrect(entries) && n <= |entries|
    ensures AllCorrect(entries[..n]) && KeysOf(entries[..n]) == KeysOf(entries)[..n]
  {
    hide Tokenize;
  }

  lemma CutNext(entries: seq<Entry>, k: nat)
    requires k + 1 < |entries|
    ensures var n := |entries| - 1;
            NextIn(entries[..n], k) == if k + 1 == n then null else NextIn(entries, k)
  {
  }

  lemma FrontNext(entry: Entry, entries: seq<Entry>, k: nat)
    requires k <= |entries|
    ensures NextIn([entry] + entries, k) == if k == 0 then HeadOf(entries) else NextIn(entries, k - 1)
  {
  }

  class TokenizerCache {
    var head: Entry?
    var entryCount: nat
    var hitCount: nat
    ghost var entries: seq<Entry>

    /** The list without its bound, as it is between a store and the eviction. */
    ghost predicate ListOk()
      reads this, entries
    {
      Linked(entries) && head == HeadOf(entries) && entryCount == |entries| && AllCorrect(entries)
    }

    ghost predicate Valid()
      reads this, entries
    {
      ListOk() && |entries| <= CACHE_LIMIT
    }

    ghost function Keys(): (texts: seq<string>)
      reads this
    {
      KeysOf(entries)
    }

    constructor ()
      ensures Valid() && Keys() == [] && hitCount == 0
    {
      head, entryCount, hitCount, entries := null, 0, 0, [];
    }

    /** The relinking of a hit that is not at the front. */
    method Relink(previous: Entry, entry: Entry, ghost i: nat)
      requires Valid() && 0 < i < |entries| && previous == entries[i - 1] && entry == entries[i]
      modifies this, entries
      ensures Valid() && entries == ToFront(old(entries), i) && hitCount == old(hitCount)
    {
      hide Tokenize, ToFront, KeysOf, NextIn;
      KeysToFront(entries, i);
      ToFrontDistinct(entries, i);
      ghost var before := entries;
      forall k | 0 <= k < |before| ensures before[k].next == NextIn(before, k) {}
      previous.next := entry.next;
      entry.next := head;
      head := entry;
      entries := ToFront(before, i);
      ToFrontNext(before, i, 0);
      forall k | 0 <= k < |entries| ensures entries[k].next == NextIn(entries, k) {
        ToFrontNext(before, i, k);
      }
    }

    /** The search loop of `tokenizer_lookup_cache`. */
    method Seek(sql: string) returns (previous: Entry?, entry: Entry?, ghost i: nat)
      requires Valid()
      ensures i <= |entries| && sql !in Keys()[..i]
      ensures entry == if i < |entries| then entries[i] else null
      ensures previous == if i == 0 then null else entries[i - 1]
      ensures i < |entries| ==> Keys()[i] == sql
    {
      hide Tokenize;
      previous, entry, i := null, head, 0;
      while entry != null && entry.sql != sql
        invariant i <= |entries| && entry == (if i < |entries| then entries[i] else null)
        invariant previous == if i == 0 then null else entries[i - 1]
        invariant sql !in Keys()[..i]
        decreases |entries| - i
      {
        assert entry.next == NextIn(entries, i);
        previous := entry;
        entry := entry.next;
        i := i + 1;
      }
    }

    /** `tokenizer_lookup_cache`: a hit moves its entry to the front. */
    method Lookup(sql: string) returns (tokens: Option<seq<Token>>)
      requires Valid()
      modifies this, entries
      ensures Valid() && forall e :: e in entries ==> e in old(entries)
      ensures Keys() == LookedUp(old(Keys()), sql)
      ensures tokens == if sql in old(Keys()) then Tokenize(sql) else None
      ensures hitCount == old(hitCount) + (if sql in old(Keys()) then 1 else 0)
      ensures tokens.Some? == (sql in old(Keys())) && (tokens.None? ==> entries == old(entries))
    {
      hide Tokenize, IndexOf, Linked, KeysOf;
      ghost var keys := Keys();
      var previous, entry, i := Seek(sql);
      if entry == null {
        assert keys[..i] == keys;
        return None;
      }
      FirstIndex(keys, sql, i);
      KeysToFront(entries, i);
      tokens := Some(entry.tokens);
      if previous != null {
        Relink(previous, entry, i);
      } else {
        assert ToFront(keys, 0) == keys;
      }
      hitCount := hitCount + 1;
    }

    /** The loop of `tokenizer_evict_oldest_cache_entry`: the last entry but one. */
    method SeekLast() returns (previous: Entry?)
      requires ListOk() && head != null
      ensures previous == if |entries| == 1 then null else entries[|entries| - 2]
    {
      hide Tokenize, AllCorrect, KeysOf;
      var entry := head;
      previous := null;
      ghost var i, n := 0, |entries| - 1;
      while entry.next != null
        invariant 0 <= i <= n && entry == entries[i]
        invariant previous == if i == 0 then null else entries[i - 1]
        decreases n - i
      {
        assert entry.next == NextIn(entries, i);
        previous := entry;
        entry := entry.next;
        i := i + 1;
      }
      assert entry.next == NextIn(entries, i);
    }

    /** `tokenizer_evict_oldest_cache_entry`. */
    method EvictOldest()
      requires ListOk() && head != null
      modifies this, entries
      ensures ListOk() && entries == old(entries)[..|old(entries)| - 1] && hitCount == old(hitCount)
    {
      hide Tokenize, AllCorrect, KeysOf, NextIn;
      var previous := SeekLast();
      ghost var n := |entries| - 1;
      ghost var before := entries;
      forall k | 0 <= k < |before| ensures before[k].next == NextIn(before, k) {}
      CutCorrect(before, n);
      if previous == null {
        head := null;
      } else {
        previous.next := null;
      }
      entries := before[..n];
      forall k | 0 <= k < n ensures entries[k].next == NextIn(entries, k) {
        CutNext(before, k);
      }
      entryCount := entryCount - 1;
    }

    /** The first part of `tokenizer_store_cache`. */
    method PushFront(sql: string, tokens: seq<Token>)
      requires ListOk() && Tokenize(sql) == Some(tokens)
      modifies this
      ensures ListOk() && |entries| == |old(entries)| + 1 && fresh(entries[0]) && entries[1..] == old(entries)
      ensures Keys() == [sql] + old(Keys()) && hitCount == old(hitCount)
    {
      hide Tokenize, NextIn;
      ghost var keys, before := Keys(), entries;
      var entry := new Entry(sql, tokens, head);
      head := entry;
      entryCount := entryCount + 1;
      entries := [entry] + entries;
      forall k | 0 <= k < |entries| ensures entries[k].next == NextIn(entries, k) {
        FrontNext(entry, before, k);
      }
      hide Linked;
      assert Keys() == [sql] + keys;
    }

    /** `tokenizer_store_cache`: a new entry goes to the front, whether or not another
        session has stored the same statement in the meantime. */
    method Store(sql: string, tokens: seq<Token>)
      requires Valid() && Tokenize(sql) == Some(tokens)
      modifies this, entries
      ensures Valid() && forall e :: e in entries ==> e in old(entries) || fresh(e)
      ensures Keys() == Stored(old(Keys()), sql) && hitCount == old(hitCount)
    {
      hide Tokenize, Linked;
      ghost var keys := Keys();
      PushFront(sql, tokens);
      assert forall k :: 0 < k < |entries| ==> entries[k] == entries[1..][k - 1];
      if entryCount > CACHE_LIMIT {
        EvictOldest();
        assert Keys() == ([sql] + keys)[..|keys|];
      }
    }

    /** `tokenizer_cleanup_cache`. */
    method Cleanup()
      requires Valid()
      modifies this
      ensures Valid() && Keys() == [] && hitCount == 0
    {
      head, entryCount, hitCount, entries := null, 0, 0, [];
    }

    /** `tokenizer_tokenize` when no other session interferes: the answer is the one
        without a cache. */
    method TokenizeCached(sql: string) returns (tokens: Option<seq<Token>>)
      requires Valid()
      modifies this, entries
      ensures Valid() && forall e :: e in entries ==> e in old(entries) || fresh(e)
      ensures tokens == TokenizeText(sql)
      ensures Keys() == Used(old(Keys()), Trimmed(sql))
      ensures hitCount == old(hitCount) + (if Trimmed(sql) in old(Keys()) && Trimmed(sql) != "" then 1 else 0)
    {
      hide Tokenize, Stored, LookedUp, Trimmed;
      var working := Trimmed(sql);
      if working == "" {
        return None;
      }
      tokens := Lookup(working);
      if tokens.Some? {
        return;
      }
      tokens := TokenizeSql(working);
      if tokens.Some? {
        Store(working, tokens.value);
      }
    }
  }

  /** The list after one use of a statement. */
  function Used(keys: seq<string>, key: string): (texts: seq<string>) {
    if key == "" then keys
    else if key in keys then LookedUp(keys, key)
    else if Tokenize(key).Some? then Stored(keys, key)
    else keys
  }
}
