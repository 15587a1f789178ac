/** What the statement cache holds after any sequential history: the at most 64 most
    recently used distinct statements that lex, most recent first. */
module CacheRecency {
  import opened Text
  import opened Tokenizer
  import opened TokenizerCaches

  predicate Distinct(keys: seq<string>) {
    forall i, j :: 0 <= i < j < |keys| ==> keys[i] != keys[j]
  }

  function Without(keys: seq<string>, key: string): (texts: seq<string>) {
    if keys == [] then []
    else if keys[0] == key then Without(keys[1..], key)
    else [keys[0]] + Without(keys[1..], key)
  }

  /** The distinct statements of a history, the latest use first. */
  function Recent(history: seq<string>): (texts: seq<string>) {
    if history == [] then []
    else
      var last := history[|history| - 1];
      [last] + Without(Recent(history[..|history| - 1]), last)
  }

  predicate Lexes(text: string) {
    TokenizeText(text).Some?
  }

  /** The statements of a history of texts: trimmed, and only those that lex. */
  function Statements(texts: seq<string>): (history: seq<string>)
    ensures forall i :: 0 <= i < |history| ==> history[i] != "" && Tokenize(history[i]).Some?
  {
    if texts == [] then []
    else
      var last := texts[|texts| - 1];
      Statements(texts[..|texts| - 1]) + (if Lexes(last) then [Trimmed(last)] else [])
  }

  /** The cache's list after the texts have been tokenized one after another. */
  function CacheAfter(texts: seq<string>): (xs: seq<string>) {
    if texts == [] then [] else Used(CacheAfter(texts[..|texts| - 1]), Trimmed(texts[|texts| - 1]))
  }

  /** The first 64 of the keys. */
  function FirstOf(keys: seq<string>): (texts: seq<string>) {
    if |keys| <= 64 then keys else keys[..64]
  }

  lemma {:induction false} WithoutAbsent(keys: seq<string>, key: string)
    requires key !in keys
    ensures Without(keys, key) == keys
  {
    if keys != [] {
      WithoutAbsent(keys[1..], key);
    }
  }

  lemma {:induction false} WithoutAt(keys: seq<string>, key: string, i: nat)
    requires Distinct(keys) && i < |keys| && keys[i] == key
    ensures Without(keys, key) == keys[..i] + keys[i + 1..]
  {
    if i == 0 {
      WithoutAbsent(keys[1..], key);
    } else {
      WithoutAt(keys[1..], key, i - 1);
      assert keys[..i] == [keys[0]] + keys[1..][..i - 1];
    }
  }

  lemma {:induction false} WithoutIsDistinct(keys: seq<string>, key: string)
    requires Distinct(keys)
    ensures Distinct(Without(keys, key)) && key !in Without(keys, key)
    ensures forall k :: k in Without(keys, key) ==> k in keys
  {
    if keys != [] {
      WithoutIsDistinct(keys[1..], key);
      assert keys[0] !in keys[1..];
    }
  }

  lemma {:induction false} RecentIsDistinct(history: seq<string>)
    ensures Distinct(Recent(history)) && forall k :: k in Recent(history) <==> k in history
  {
    if history != [] {
      var n := |history| - 1;
      RecentIsDistinct(history[..n]);
      WithoutIsDistinct(Recent(history[..n]), history[n]);
      assert history == history[..n] + [history[n]];
      forall k | k in Recent(history[..n]) && k != history[n] ensures k in Without(Recent(history[..n]), history[n]) {
        StaysIn(Recent(history[..n]), history[n], k);
      }
    }
  }

  lemma {:induction false} StaysIn(keys: seq<string>, key: string, k: string)
    requires k in keys && k != key
    ensures k in Without(keys, key)
  {
    if keys[0] != k {
      StaysIn(keys[1..], key, k);
    }
  }

  lemma HitKeepsRecency(recent: seq<string>, key: string, i: nat)
    requires Distinct(recent) && i < |FirstOf(recent)| && recent[i] == key
    ensures LookedUp(FirstOf(recent), key) == FirstOf([key] + Without(recent, key))
  {
    var keys := FirstOf(recent);
    WithoutAt(recent, key, i);
    assert key !in keys[..i];
    FirstIndex(keys, key, i);
    hide IndexOf, Without, Distinct;
    MovedFront(recent, i);
  }

  /** Moving to the front and cutting off commute. */
  lemma MovedFront(recent: seq<string>, i: nat)
    requires i < |FirstOf(recent)|
    ensures ToFront(FirstOf(recent), i) == FirstOf([recent[i]] + (recent[..i] + recent[i + 1..]))
  {
    var keys, moved := FirstOf(recent), [recent[i]] + (recent[..i] + recent[i + 1..]);
    assert keys[..i] == recent[..i];
    if |recent| > CACHE_LIMIT {
      assert keys[i + 1..] == recent[i + 1..CACHE_LIMIT];
      assert moved[..CACHE_LIMIT] == [recent[i]] + recent[..i] + recent[i + 1..CACHE_LIMIT];
    } else {
      assert moved == [recent[i]] + keys[..i] + keys[i + 1..];
    }
  }

  lemma MissKeepsRecency(recent: seq<string>, key: string)
    requires Distinct(recent) && key !in FirstOf(recent)
    ensures Stored(FirstOf(recent), key) == FirstOf([key] + Without(recent, key))
  {
    if key in recent {
      var i :| 0 <= i < |recent| && recent[i] == key;
      WithoutAt(recent, key, i);
      hide Without;
      assert forall j :: 0 <= j < |FirstOf(recent)| ==> recent[j] == FirstOf(recent)[j];
      assert i >= CACHE_LIMIT;
      assert ([key] + (recent[..i] + recent[i + 1..]))[..CACHE_LIMIT] == ([key] + recent[..CACHE_LIMIT])[..CACHE_LIMIT];
    } else {
      WithoutAbsent(recent, key);
      hide Without;
      if |recent| >= CACHE_LIMIT {
        assert ([key] + recent)[..CACHE_LIMIT] == ([key] + recent[..CACHE_LIMIT])[..CACHE_LIMIT];
      }
    }
  }

  /** One use keeps the list the front of the recency order. */
  lemma UseKeepsRecency(recent: seq<string>, key: string)
    requires Distinct(recent) && key != "" && Tokenize(key).Some?
    ensures Used(FirstOf(recent), key) == FirstOf([key] + Without(recent, key))
  {
    hide Tokenize, Without, LookedUp, Stored;
    if key in FirstOf(recent) {
      var i :| 0 <= i < |FirstOf(recent)| && FirstOf(recent)[i] == key;
      HitKeepsRecency(recent, key, i);
    } else {
      MissKeepsRecency(recent, key);
    }
  }

  /** Sequentially, the cache is exactly the front of the recency order. */
  lemma {:induction false} CacheIsMostRecentlyUsed(texts: seq<string>)
    ensures CacheAfter(texts) == FirstOf(Recent(Statements(texts)))
  {
    hide Tokenize, Trimmed, Used;
    if texts != [] {
      var n := |texts| - 1;
      var key, history := Trimmed(texts[n]), Statements(texts[..n]);
      CacheIsMostRecentlyUsed(texts[..n]);
      RecentIsDistinct(history);
      assert !Lexes(texts[n]) ==> Statements(texts) == history;
      if Lexes(texts[n]) {
        UseKeepsRecency(Recent(history), key);
        assert Statements(texts)[..|history|] == history;
      } else {
        UnlexedIsNotStored(CacheAfter(texts[..n]), texts[n], history);
      }
    }
  }

  lemma UnlexedIsNotStored(keys: seq<string>, text: string, history: seq<string>)
    requires keys == FirstOf(Recent(history)) && !Lexes(text)
    requires forall i :: 0 <= i < |history| ==> history[i] != "" && Tokenize(history[i]).Some?
    ensures Used(keys, Trimmed(text)) == keys
  {
    hide Tokenize, Trimmed, Recent;
    RecentIsDistinct(history);
    assert forall k :: k in keys ==> k in Recent(history);
  }
}
