/** Lexing and spelling are inverse: any layout of canonical tokens lexes to exactly those
    tokens, and the lexer produces nothing but canonical tokens. Splitting a text at its
    statement terminator agrees with the lexer. */
module Lexing {
  import opened Text
  import opened Alphabet
  import opened Tokenizer

  // ---- spelling -----------------------------------------------------------------------

  /** The text of a string literal's contents: every quote doubled. */
  function Doubled(value: string): (text: string) {
    if value == "" then ""
    else (if value[0] == '\'' then "''" else [value[0]]) + Doubled(value[1..])
  }

  function Spell(t: Token): (text: string) {
    if t.kind == StrLiteral then "'" + Doubled(t.value) + "'" else t.value
  }

  predicate IsWord(value: string) {
    && value != "" && FitsToken(value) && !IsDigit(value[0])
    && forall i :: 0 <= i < |value| ==> IsWordChar(value[i])
  }

  predicate IsOperator(value: string) {
    value == "!" || value == "<" || value == ">" || value == "=" || value == "!=" || value == "<=" || value == ">="
  }

  /** A character that starts none of the other tokens. */
  predicate IsOther(c: char) {
    && !IsSpace(c) && Punctuation(c).None? && c != '\'' && !IsOperatorChar(c)
    && !IsWordChar(c)
  }

  /** The tokens the lexer can produce. */
  predicate Canonical(t: Token) {
    match t.kind
    case Keyword => t.value in KEYWORDS
    case Identifier => t.value == "*" || (IsWord(t.value) && !IsKeyword(t.value))
    case IntLiteral => IsIntegerText(t.value) && FitsToken(t.value)
    case StrLiteral => FitsToken(t.value)
    case Operator => IsOperator(t.value)
    case LParen => t.value == "("
    case RParen => t.value == ")"
    case Comma => t.value == ","
    case Semicolon => t.value == ";"
    case Unknown => |t.value| == 1 && IsOther(t.value[0])
  }

  /** Right after the token, the character would be read as part of it. */
  predicate Merges(t: Token, c: char) {
    match t.kind
    case Keyword => IsWordChar(c)
    case Identifier => t.value != "*" && IsWordChar(c)
    case IntLiteral => IsDigit(c)
    case StrLiteral => c == '\''
    case Operator => |t.value| == 1 && t.value != "=" && c == '='
    case Unknown => t.value != "" && IsSign(t.value[0]) && IsDigit(c)
    case _ => false
  }

  // ---- spelled tokens are read back ------------------------------------------------------

  lemma {:induction false} StringReadsBack(s: string, i: nat, value: string, j: nat)
    requires i < j <= |s| && s[i..j] == Doubled(value) + "'" && (j < |s| ==> s[j] != '\'')
    ensures StringFrom(s, i) == Some((value, j))
    decreases |value|
  {
    assert s[i] == s[i..j][0];
    if value == "" {
      assert j == i + 1;
    } else if value[0] == '\'' {
      assert s[i + 1] == s[i..j][1];
      assert s[i + 2..j] == s[i..j][2..] == Doubled(value[1..]) + "'";
      StringReadsBack(s, i + 2, value[1..], j);
      assert "'" + value[1..] == value;
    } else {
      assert s[i + 1..j] == s[i..j][1..] == Doubled(value[1..]) + "'";
      StringReadsBack(s, i + 1, value[1..], j);
      assert [value[0]] + value[1..] == value;
    }
  }

  lemma KeywordIsWord(word: string)
    requires word in KEYWORDS
    ensures IsWord(word) && IsKeyword(word) && Upper(word) == word && IsAlpha(word[0])
  {
  }

  lemma WordReadsBack(s: string, i: nat, word: string, j: nat)
    requires IsWord(word) && i < j <= |s| && s[i..j] == word && (j < |s| ==> !IsWordChar(s[j]))
    ensures !IsSpace(s[i]) && Scan(s, i) == Some((WordToken(word), j))
  {
    assert s[i] == word[0];
    forall k | i <= k < j ensures IsWordChar(s[k]) {
      assert s[k] == word[k - i];
    }
    assert WordEnd(s, i) == j;
  }

  lemma NumberReadsBack(s: string, i: nat, number: string, j: nat)
    requires IsIntegerText(number) && FitsToken(number) && i < j <= |s| && s[i..j] == number
      && (j < |s| ==> !IsDigit(s[j]))
    ensures !IsSpace(s[i]) && Scan(s, i) == Some((Token(IntLiteral, number), j))
  {
    assert s[i] == number[0];
    var first := if IsSign(s[i]) then i + 1 else i;
    forall k | first <= k < j ensures IsDigit(s[k]) {
      assert s[k] == number[k - i] == DigitsOf(number)[k - first];
    }
    assert DigitsEnd(s, first) == j;
  }

  lemma OperatorReadsBack(s: string, i: nat, op: string, j: nat)
    requires IsOperator(op) && i < j <= |s| && s[i..j] == op && (j < |s| ==> !Merges(Token(Operator, op), s[j]))
    ensures !IsSpace(s[i]) && Scan(s, i) == Some((Token(Operator, op), j))
  {
    assert s[i] == op[0];
    if |op| == 2 {
      assert s[i + 1] == op[1];
    }
  }

  /** A canonical token is read from its spelling, wherever it stands. */
  lemma TokenReadsBack(s: string, i: nat, t: Token, j: nat)
    requires Canonical(t) && i < j <= |s| && s[i..j] == Spell(t) && (j < |s| ==> !Merges(t, s[j]))
    ensures !IsSpace(s[i]) && Scan(s, i) == Some((t, j))
  {
    hide WordEnd, DigitsEnd, StringFrom, FirstNamed, Doubled;
    assert s[i] == Spell(t)[0];
    match t.kind
    case Keyword =>
      KeywordIsWord(t.value);
      WordReadsBack(s, i, t.value, j);
    case Identifier =>
      if t.value != "*" {
        WordReadsBack(s, i, t.value, j);
      }
    case IntLiteral => NumberReadsBack(s, i, t.value, j);
    case StrLiteral =>
      assert s[i + 1..j] == s[i..j][1..] == Doubled(t.value) + "'";
      StringReadsBack(s, i + 1, t.value, j);
    case Operator => OperatorReadsBack(s, i, t.value, j);
    case Unknown =>
      assert t.value == [t.value[0]];
      OtherReadsBack(s, i, t.value[0]);
    case _ =>
  }

  lemma OtherReadsBack(s: string, i: nat, c: char)
    requires i < |s| && s[i] == c && IsOther(c) && (i + 1 < |s| && IsSign(c) ==> !IsDigit(s[i + 1]))
    ensures !IsSpace(s[i]) && Scan(s, i) == Some((Token(Unknown, [c]), i + 1))
  {
  }

  // ---- layouts -----------------------------------------------------------------------------

  predicate IsBlank(gap: string) {
    forall i :: 0 <= i < |gap| ==> IsSpace(gap[i])
  }

  /** The tokens spelled one after another with the given gaps around them. */
  function Layout(tokens: seq<Token>, gaps: seq<string>): (text: string)
    requires |gaps| == |tokens| + 1
  {
    if tokens == [] then gaps[0] else gaps[0] + Spell(tokens[0]) + Layout(tokens[1..], gaps[1..])
  }

  /** Gaps are white space, and one is there wherever two tokens would run together. */
  predicate GapsOk(tokens: seq<Token>, gaps: seq<string>) {
    && |gaps| == |tokens| + 1
    && (forall i :: 0 <= i < |gaps| ==> IsBlank(gaps[i]))
    && forall i :: 0 < i < |tokens| ==> Apart(tokens[i - 1], gaps[i], tokens[i])
  }

  /** The tokens do not run together across the gap. */
  predicate Apart(t: Token, gap: string, u: Token) {
    gap == "" ==> Spell(u) != "" && !Merges(t, Spell(u)[0])
  }

  predicate AllCanonical(tokens: seq<Token>) {
    forall i :: 0 <= i < |tokens| ==> Canonical(tokens[i])
  }

  lemma {:induction false} BlankIsSkipped(s: string, i: nat, k: nat)
    requires i <= k <= |s| && IsBlank(s[i..k])
    ensures LexemesFrom(s, i) == LexemesFrom(s, k)
    decreases k - i
  {
    if i < k {
      assert s[i] == s[i..k][0] && s[i + 1..k] == s[i..k][1..];
      BlankIsSkipped(s, i + 1, k);
    }
  }

  lemma SpellIsNotEmpty(t: Token)
    requires Canonical(t)
    ensures Spell(t) != ""
  {
  }

  /** The first character after a token that a layout goes on with. */
  lemma NextCharacter(tokens: seq<Token>, gaps: seq<string>)
    requires AllCanonical(tokens) && GapsOk(tokens, gaps) && tokens != []
    ensures var rest := Layout(tokens[1..], gaps[1..]);
            GapsOk(tokens[1..], gaps[1..]) && (rest != "" ==> !Merges(tokens[0], rest[0]))
  {
    hide Canonical, Spell, Merges;
    var gap, ts := gaps[1], tokens[1..];
    assert gaps[1..][0] == gap;
    forall i | 0 < i < |ts| ensures Apart(ts[i - 1], gaps[1..][i], ts[i]) {
      assert Apart(tokens[i + 1 - 1], gaps[i + 1], tokens[i + 1]);
    }
    if gap != "" {
      assert IsSpace(gap[0]);
      SpacesNeverMerge(tokens[0], gap[0]);
    } else if ts != [] {
      assert Apart(tokens[1 - 1], gaps[1], tokens[1]);
    }
  }

  lemma SpacesNeverMerge(t: Token, c: char)
    requires IsSpace(c)
    ensures !Merges(t, c)
  {
  }

  lemma Pieces(s: string, i: nat, a: string, b: string, c: string)
    requires i <= |s| && s[i..] == a + b + c
    ensures var start, end := i + |a|, i + |a| + |b|;
            && end <= |s| && s[i..start] == a && s[start..end] == b && s[end..] == c
            && (end < |s| ==> c != "" && s[end] == c[0])
  {
    var rest := s[i..];
    assert rest[..|a|] == a && rest[|a|..|a| + |b|] == b && rest[|a| + |b|..] == c;
    var start, end := i + |a|, i + |a| + |b|;
    assert s[i..start] == rest[..|a|];
    assert s[start..end] == rest[|a|..|a| + |b|];
    assert s[end..] == rest[|a| + |b|..];
    assert end < |s| ==> s[end] == s[end..][0];
  }

  lemma NothingLeft(s: string)
    ensures LexemesFrom(s, |s|) == Some([])
  {
  }

  lemma LexemeFirst(s: string, i: nat)
    requires i < |s| && !IsSpace(s[i]) && Scan(s, i).Some? && LexemesFrom(s, Scan(s, i).value.1).Some?
    ensures LexemesFrom(s, i).Some?
    ensures TokensOf(LexemesFrom(s, i).value)
      == [Scan(s, i).value.0] + TokensOf(LexemesFrom(s, Scan(s, i).value.1).value)
  {
    hide Scan;
  }

  lemma {:induction false} LayoutLexesAt(s: string, i: nat, tokens: seq<Token>, gaps: seq<string>)
    requires AllCanonical(tokens) && GapsOk(tokens, gaps) && i <= |s| && s[i..] == Layout(tokens, gaps)
    ensures LexemesFrom(s, i).Some? && TokensOf(LexemesFrom(s, i).value) == tokens
    decreases |tokens|
  {
    hide Canonical, Merges, Scan, Spell, IsBlank, LexemesFrom;
    var start := i + |gaps[0]|;
    if tokens == [] {
      assert s[i..start] == gaps[0] && start == |s|;
      BlankIsSkipped(s, i, start);
      NothingLeft(s);
    } else {
      var t, rest := tokens[0], Layout(tokens[1..], gaps[1..]);
      var end := start + |Spell(t)|;
      Pieces(s, i, gaps[0], Spell(t), rest);
      BlankIsSkipped(s, i, start);
      NextCharacter(tokens, gaps);
      SpellIsNotEmpty(t);
      TokenReadsBack(s, start, t, end);
      LayoutLexesAt(s, end, tokens[1..], gaps[1..]);
      LexemeFirst(s, start);
      assert tokens == [t] + tokens[1..];
    }
  }

  /** Every layout of canonical tokens lexes to those tokens. */
  lemma LayoutLexes(tokens: seq<Token>, gaps: seq<string>)
    requires AllCanonical(tokens) && GapsOk(tokens, gaps)
    ensures Tokenize(Layout(tokens, gaps)) == Some(tokens)
  {
    var s := Layout(tokens, gaps);
    assert s[0..] == s;
    LayoutLexesAt(s, 0, tokens, gaps);
  }

  // ---- white space around a text does not matter ----------------------------------------------

  /** The tokens from `i` on. */
  function TokensFrom(s: string, i: nat): (found: Option<seq<Token>>)
    requires i <= |s|
  {
    var lexemes := LexemesFrom(s, i);
    if lexemes.None? then None else Some(TokensOf(lexemes.value))
  }

  lemma TokensFromStep(s: string, i: nat)
    requires i < |s|
    ensures TokensFrom(s, i)
            == if IsSpace(s[i]) then TokensFrom(s, i + 1)
               else if Scan(s, i).None? then None
               else Prepend([Scan(s, i).value.0], TokensFrom(s, Scan(s, i).value.1))
  {
    hide Scan;
    if !IsSpace(s[i]) && Scan(s, i).Some? && LexemesFrom(s, Scan(s, i).value.1).Some? {
      LexemeFirst(s, i);
    }
  }

  lemma {:induction false} WordEndSpace(s: string, c: char, i: nat)
    requires i <= |s| && IsSpace(c)
    ensures WordEnd(s + [c], i) == WordEnd(s, i)
    decreases |s| - i
  {
    if i < |s| {
      WordEndSpace(s, c, i + 1);
    }
  }

  lemma {:induction false} DigitsEndSpace(s: string, c: char, i: nat)
    requires i <= |s| && IsSpace(c)
    ensures DigitsEnd(s + [c], i) == DigitsEnd(s, i)
    decreases |s| - i
  {
    if i < |s| {
      DigitsEndSpace(s, c, i + 1);
    }
  }

  lemma {:induction false} StringFromSpace(s: string, c: char, i: nat)
    requires i <= |s| && IsSpace(c)
    ensures StringFrom(s + [c], i) == StringFrom(s, i)
    decreases |s| - i
  {
    if i < |s| {
      StringFromSpace(s, c, i + 1);
      if i + 2 <= |s| {
        StringFromSpace(s, c, i + 2);
      }
    }
  }

  /** A space at the end of the text changes no token, and completes no open string. */
  lemma ScanSpace(s: string, c: char, i: nat)
    requires i < |s| && !IsSpace(s[i]) && IsSpace(c)
    ensures Scan(s + [c], i) == Scan(s, i)
  {
    hide WordEnd, NumberEnd, IsNumericStart, OperatorEnd, StringFrom, WordToken, Punctuation, IsOperatorChar, IsAlpha,
      IsSpace, FitsToken;
    var t := s + [c];
    StringFromSpace(s, c, i + 1);
    WordEndSpace(s, c, i);
    NumberSpace(s, c, i);
    assert t[i..WordEnd(s, i)] == s[i..WordEnd(s, i)];
    assert t[i..NumberEnd(s, i)] == s[i..NumberEnd(s, i)];
    assert t[i..OperatorEnd(s, i)] == s[i..OperatorEnd(s, i)];
  }

  lemma NumberSpace(s: string, c: char, i: nat)
    requires i < |s| && IsSpace(c)
    ensures NumberEnd(s + [c], i) == NumberEnd(s, i) && OperatorEnd(s + [c], i) == OperatorEnd(s, i)
    ensures IsNumericStart(s + [c], i) == IsNumericStart(s, i)
  {
    DigitsEndSpace(s, c, i);
    DigitsEndSpace(s, c, i + 1);
  }

  lemma {:induction false} TokensFromSpace(s: string, c: char, i: nat)
    requires i <= |s| && IsSpace(c)
    ensures TokensFrom(s + [c], i) == TokensFrom(s, i)
    decreases |s| - i
  {
    hide Scan, TokensFrom;
    TokensFromStep(s + [c], i);
    if i == |s| {
      NoTokensLeft(s);
      NoTokensLeft(s + [c]);
    } else {
      TokensFromStep(s, i);
      if IsSpace(s[i]) {
        TokensFromSpace(s, c, i + 1);
      } else {
        ScanSpace(s, c, i);
        if Scan(s, i).Some? {
          TokensFromSpace(s, c, Scan(s, i).value.1);
        }
      }
    }
  }

  lemma NoTokensLeft(s: string)
    ensures TokensFrom(s, |s|) == Some([])
  {
  }

  lemma {:induction false} WordEndShift(s: string, i: nat)
    requires 0 < i <= |s|
    ensures WordEnd(s, i) == WordEnd(s[1..], i - 1) + 1
    decreases |s| - i
  {
    if i < |s| {
      WordEndShift(s, i + 1);
    }
  }

  lemma {:induction false} DigitsEndShift(s: string, i: nat)
    requires 0 < i <= |s|
    ensures DigitsEnd(s, i) == DigitsEnd(s[1..], i - 1) + 1
    decreases |s| - i
  {
    if i < |s| {
      DigitsEndShift(s, i + 1);
    }
  }

  /** The same token, and the offset after it one further on. */
  function Further<T>(read: Option<(T, nat)>): (moved: Option<(T, nat)>) {
    if read.None? then None else Some((read.value.0, read.value.1 + 1))
  }

  lemma {:induction false} StringFromShift(s: string, i: nat)
    requires 0 < i <= |s|
    ensures StringFrom(s, i) == Further(StringFrom(s[1..], i - 1))
    decreases |s| - i
  {
    if i < |s| {
      StringFromShift(s, i + 1);
      if i + 2 <= |s| {
        StringFromShift(s, i + 2);
      }
    }
  }

  lemma ScanShift(s: string, i: nat)
    requires 0 < i < |s| && !IsSpace(s[i])
    ensures Scan(s, i) == Further(Scan(s[1..], i - 1))
  {
    hide WordEnd, NumberEnd, IsNumericStart, OperatorEnd, StringFrom, Scan, Further;
    StringFromShift(s, i + 1);
    WordEndShift(s, i);
    NumberShift(s, i);
    SliceShift(s, i, WordEnd(s, i));
    SliceShift(s, i, NumberEnd(s, i));
    SliceShift(s, i, OperatorEnd(s, i));
    SameScan(s, s[1..], i);
  }

  /** A token is read alike from two texts that agree on what its readers find. */
  lemma SameScan(s: string, t: string, i: nat)
    requires 0 < i < |s| && |t| == |s| - 1 && t[i - 1] == s[i] && !IsSpace(s[i])
    requires StringFrom(s, i + 1) == Further(StringFrom(t, i)) && IsNumericStart(s, i) == IsNumericStart(t, i - 1)
    requires WordEnd(s, i) == WordEnd(t, i - 1) + 1 && NumberEnd(s, i) == NumberEnd(t, i - 1) + 1
    requires OperatorEnd(s, i) == OperatorEnd(t, i - 1) + 1
    requires s[i..WordEnd(s, i)] == t[i - 1..WordEnd(t, i - 1)]
    requires s[i..NumberEnd(s, i)] == t[i - 1..NumberEnd(t, i - 1)]
    requires s[i..OperatorEnd(s, i)] == t[i - 1..OperatorEnd(t, i - 1)]
    ensures Scan(s, i) == Further(Scan(t, i - 1))
  {
    hide WordEnd, NumberEnd, IsNumericStart, OperatorEnd, StringFrom, WordToken, Punctuation, IsOperatorChar, IsAlpha;
  }

  lemma SliceShift(s: string, i: nat, end: nat)
    requires 0 < i <= end <= |s|
    ensures s[1..][i - 1..end - 1] == s[i..end]
  {
  }

  lemma NumberShift(s: string, i: nat)
    requires 0 < i < |s|
    ensures NumberEnd(s, i) == NumberEnd(s[1..], i - 1) + 1 && OperatorEnd(s, i) == OperatorEnd(s[1..], i - 1) + 1
    ensures IsNumericStart(s, i) == IsNumericStart(s[1..], i - 1)
  {
    DigitsEndShift(s, i);
    DigitsEndShift(s, i + 1);
  }

  /** What comes before `i` does not matter. */
  lemma {:induction false} TokensFromShift(s: string, i: nat)
    requires 0 < i <= |s|
    ensures TokensFrom(s, i) == TokensFrom(s[1..], i - 1)
    decreases |s| - i
  {
    hide Scan, TokensFrom;
    if i == |s| {
      NoTokensLeft(s);
      NoTokensLeft(s[1..]);
    } else {
      TokensFromStep(s, i);
      TokensFromStep(s[1..], i - 1);
      if IsSpace(s[i]) {
        TokensFromShift(s, i + 1);
      } else {
        ScanShift(s, i);
        if Scan(s, i).Some? {
          TokensFromShift(s, Scan(s, i).value.1);
        }
      }
    }
  }

  lemma {:induction false} TokenizeTrimRight(s: string)
    ensures Tokenize(TrimRight(s)) == Tokenize(s)
  {
    if s != "" && IsSpace(s[|s| - 1]) {
      var front := s[..|s| - 1];
      assert s == front + [s[|s| - 1]];
      TokensFromSpace(front, s[|s| - 1], 0);
      TokenizeTrimRight(front);
    }
  }

  lemma {:induction false} TokenizeTrimLeft(s: string)
    ensures Tokenize(TrimLeft(s)) == Tokenize(s)
  {
    if s != "" && IsSpace(s[0]) {
      TokensFromStep(s, 0);
      TokensFromShift(s, 1);
      TokenizeTrimLeft(s[1..]);
    }
  }

  /** Trimming a text, as the engine does before it lexes, changes no token: neither for
      the texts that lex nor for those that do not. */
  lemma TokenizeTrimmed(s: string)
    ensures Tokenize(Trimmed(s)) == Tokenize(s)
  {
    hide Tokenize;
    TokenizeTrimRight(s);
    TokenizeTrimLeft(TrimRight(s));
  }

  /** The keywords, in any letter case. */
  lemma KeywordsAre(word: string)
    ensures IsKeyword(word) <==>
            || Alike(word, "INSERT") || Alike(word, "SELECT") || Alike(word, "DELETE") || Alike(word, "INTO")
            || Alike(word, "FROM") || Alike(word, "WHERE") || Alike(word, "VALUES")
  {
    hide Alike, SameName;
    SameNameExactly("INSERT", word);
    SameNameExactly("SELECT", word);
    SameNameExactly("DELETE", word);
    SameNameExactly("INTO", word);
    SameNameExactly("FROM", word);
    SameNameExactly("WHERE", word);
    SameNameExactly("VALUES", word);
    forall k | 0 <= k < |KEYWORDS| ensures Alike(KEYWORDS[k], word) <==> Alike(word, KEYWORDS[k]) {
      AlikeTurned(KEYWORDS[k], word);
    }
    assert KEYWORDS[0] == "INSERT" && KEYWORDS[1] == "SELECT" && KEYWORDS[2] == "DELETE" && KEYWORDS[3] == "INTO";
    assert KEYWORDS[4] == "FROM" && KEYWORDS[5] == "WHERE" && KEYWORDS[6] == "VALUES" && |KEYWORDS| == 7;
  }

  // ---- how long a token may be ----------------------------------------------------------------------

  lemma OneToken(s: string)
    requires s != "" && !IsSpace(s[0]) && (Scan(s, 0).Some? ==> Scan(s, 0).value.1 == |s|)
    ensures Tokenize(s).Some? <==> Scan(s, 0).Some?
  {
    NothingLeft(s);
  }

  /** A word lexes exactly when it has at most 255 characters. */
  lemma WordLimit(word: string)
    requires word != "" && !IsDigit(word[0]) && forall i :: 0 <= i < |word| ==> IsWordChar(word[i])
    ensures Tokenize(word).Some? <==> |word| <= 255
  {
    assert WordEnd(word, 0) == |word| && word[0..|word|] == word;
    hide Tokenize, WordEnd, WordToken;
    OneToken(word);
  }

  /** A word in the letters of a keyword is the keyword's own token, in capitals; any other
      word keeps its letters. */
  lemma WordTokens(word: string)
    requires word != "" && !IsDigit(word[0]) && |word| <= 255
    requires forall i :: 0 <= i < |word| ==> IsWordChar(word[i])
    ensures forall keyword :: keyword in KEYWORDS && Alike(word, keyword)
              ==> Tokenize(word) == Some([Token(Keyword, keyword)])
    ensures !IsKeyword(word) ==> Tokenize(word) == Some([Token(Identifier, word)])
  {
    assert word[0..|word|] == word;
    assert IsWord(word);
    WordReadsBack(word, 0, word, |word|);
    NothingLeft(word);
    LexemeFirst(word, 0);
    assert Tokenize(word) == Some([WordToken(word)]) by {
      hide Scan, WordToken, IsWord;
      assert [WordToken(word)] + TokensOf([]) == [WordToken(word)];
    }
    forall keyword | keyword in KEYWORDS && Alike(word, keyword)
      ensures WordToken(word) == Token(Keyword, keyword)
    {
      hide Alike;
      SameNameExactly(word, keyword);
      KeywordIsWord(keyword);
      var k :| 0 <= k < |KEYWORDS| && KEYWORDS[k] == keyword;
      assert SameName(KEYWORDS[k], word);
      assert IsKeyword(word) && Upper(word) == Upper(keyword) == keyword;
    }
  }

  /** A string lexes exactly when its contents have at most 255 characters. */
  lemma StringLimit(value: string)
    ensures Tokenize("'" + Doubled(value) + "'").Some? <==> |value| <= 255
  {
    hide Tokenize, StringFrom, Doubled, WordEnd, NumberEnd, IsNumericStart, OperatorEnd;
    var s := "'" + Doubled(value) + "'";
    assert s[1..|s|] == Doubled(value) + "'";
    StringReadsBack(s, 1, value, |s|);
    OneToken(s);
  }

  /** A number lexes exactly when it has at most 255 characters, its sign included. */
  lemma NumberLimit(number: string)
    requires IsIntegerText(number)
    ensures Tokenize(number).Some? <==> |number| <= 255
  {
    var first := if IsSign(number[0]) then 1 else 0;
    forall k | first <= k < |number| ensures IsDigit(number[k]) {
      assert number[k] == DigitsOf(number)[k - first];
    }
    assert DigitsEnd(number, first) == |number| && number[0..|number|] == number;
    hide Tokenize, DigitsEnd;
    OneToken(number);
  }

  // ---- what the lexer skips ---------------------------------------------------------------------

  /** The token that starts at `start` and the offset after it. */
  function TokenAt(s: string, start: nat): (read: Option<(Token, nat)>)
    requires start < |s| && !White(s[start])
  {
    SpacesAre(s[start]);
    Scan(s, start)
  }

  /** Offset `k` belongs to one of the tokens. */
  ghost predicate IsCovered(s: string, lexemes: seq<Lexeme>, k: nat) {
    exists j :: 0 <= j < |lexemes| && Covers(s, lexemes[j].start, k)
  }

  predicate Covers(s: string, start: nat, k: nat) {
    start < |s| && !White(s[start]) && TokenAt(s, start).Some? && start <= k < TokenAt(s, start).value.1
  }

  /** Every character that is not white belongs to a token. */
  lemma {:induction false} OthersAreCovered(s: string, i: nat, k: nat)
    requires i <= k < |s| && LexemesFrom(s, i).Some? && !White(s[k])
    ensures IsCovered(s, LexemesFrom(s, i).value, k)
    decreases |s| - i
  {
    hide Scan, White;
    SpacesAre(s[i]);
    var lexemes := LexemesFrom(s, i).value;
    if IsSpace(s[i]) {
      OthersAreCovered(s, i + 1, k);
    } else if k < TokenAt(s, i).value.1 {
      assert Covers(s, lexemes[0].start, k);
    } else {
      var end := TokenAt(s, i).value.1;
      var later := LexemesFrom(s, end).value;
      OthersAreCovered(s, end, k);
      var j :| 0 <= j < |later| && Covers(s, later[j].start, k);
      assert lexemes[j + 1] == later[j];
    }
  }

  /** The texts without tokens are exactly the white ones. */
  lemma {:induction false} NoTokensExactly(s: string, i: nat)
    requires i <= |s|
    ensures LexemesFrom(s, i) == Some([]) <==> forall k :: i <= k < |s| ==> White(s[k])
    decreases |s| - i
  {
    hide Scan, White;
    if i < |s| {
      SpacesAre(s[i]);
      if IsSpace(s[i]) {
        NoTokensExactly(s, i + 1);
      }
    }
  }

  // ---- the lexer's own tokens are canonical --------------------------------------------------

  lemma {:induction false} UpperKeyword(word: string)
    requires IsKeyword(word)
    ensures Upper(word) in KEYWORDS
  {
    var i := FirstNamed(KEYWORDS, word).value;
    KeywordIsWord(KEYWORDS[i]);
    assert Upper(word) == Upper(KEYWORDS[i]) == KEYWORDS[i];
  }

  lemma ScannedIsCanonical(s: string, i: nat)
    requires i < |s| && !IsSpace(s[i]) && Scan(s, i).Some?
    ensures Canonical(Scan(s, i).value.0)
  {
    hide FirstNamed, StringFrom;
    if Punctuation(s[i]).None? && s[i] != '\'' && !IsOperatorChar(s[i]) {
      if IsNumericStart(s, i) {
        ScannedNumber(s, i);
      } else if IsAlpha(s[i]) || s[i] == '_' {
        ScannedWord(s, i);
      }
    }
  }

  lemma ScannedNumber(s: string, i: nat)
    requires i < |s| && IsNumericStart(s, i)
    ensures IsIntegerText(s[i..NumberEnd(s, i)])
  {
    var end := NumberEnd(s, i);
    var number, first := s[i..end], if IsSign(s[i]) then i + 1 else i;
    assert first < end;
    assert number[0] == s[i];
    assert DigitsOf(number) == s[first..end];
  }

  lemma ScannedWord(s: string, i: nat)
    requires i < |s| && !IsDigit(s[i]) && IsWordChar(s[i]) && FitsToken(s[i..WordEnd(s, i)])
    ensures Canonical(WordToken(s[i..WordEnd(s, i)]))
  {
    hide FirstNamed;
    var word := s[i..WordEnd(s, i)];
    assert word[0] == s[i];
    if IsKeyword(word) {
      UpperKeyword(word);
    }
  }

  lemma {:induction false} LexedIsCanonical(s: string, i: nat)
    requires i <= |s| && LexemesFrom(s, i).Some?
    ensures AllCanonical(TokensOf(LexemesFrom(s, i).value))
    decreases |s| - i
  {
    hide Canonical, Scan;
    if i < |s| {
      if IsSpace(s[i]) {
        LexedIsCanonical(s, i + 1);
      } else {
        ScannedIsCanonical(s, i);
        LexedIsCanonical(s, Scan(s, i).value.1);
        LexemeFirst(s, i);
      }
    }
  }

  /** What the lexer accepts can be laid out again in any way: the tokens stay the same. */
  lemma RespellingKeepsTokens(s: string, gaps: seq<string>)
    requires Tokenize(s).Some? && GapsOk(Tokenize(s).value, gaps)
    ensures Tokenize(Layout(Tokenize(s).value, gaps)) == Tokenize(s)
  {
    LexedIsCanonical(s, 0);
    LayoutLexes(Tokenize(s).value, gaps);
  }

  // ---- statement terminators -----------------------------------------------------------------

  /** The first `;` outside quotes. */
  function TerminatorFrom(s: string, i: nat, inQuotes: bool): (found: Option<nat>)
    decreases |s| - i
  {
    if i >= |s| then None
    else if s[i] == '\'' then
      if inQuotes && i + 1 < |s| && s[i + 1] == '\'' then TerminatorFrom(s, i + 2, inQuotes)
      else TerminatorFrom(s, i + 1, !inQuotes)
    else if !inQuotes && s[i] == ';' then Some(i)
    else TerminatorFrom(s, i + 1, inQuotes)
  }

  /** `utils_find_statement_terminator`. */
  method FindStatementTerminator(text: string, start: nat) returns (found: Option<nat>)
    requires start <= |text|
    ensures found == TerminatorFrom(text, start, false)
  {
    var inQuotes, i := false, start;
    while i < |text|
      invariant start <= i <= |text|
      invariant TerminatorFrom(text, i, inQuotes) == TerminatorFrom(text, start, false)
    {
      if text[i] == '\'' {
        if inQuotes && i + 1 < |text| && text[i + 1] == '\'' {
          i := i + 2;
          continue;
        }
        inQuotes := !inQuotes;
        i := i + 1;
        continue;
      }
      if !inQuotes && text[i] == ';' {
        return Some(i);
      }
      i := i + 1;
    }
    return None;
  }

  /** The offset of the first semicolon token. */
  function FirstSemicolon(lexemes: seq<Lexeme>): (found: Option<nat>) {
    if lexemes == [] then None
    else if lexemes[0].token.kind == Semicolon then Some(lexemes[0].start)
    else FirstSemicolon(lexemes[1..])
  }

  lemma {:induction false} StringIsSkipped(s: string, i: nat)
    requires i <= |s| && StringFrom(s, i).Some?
    ensures TerminatorFrom(s, i, true) == TerminatorFrom(s, StringFrom(s, i).value.1, false)
    decreases |s| - i
  {
    if s[i] == '\'' {
      if i + 1 < |s| && s[i + 1] == '\'' {
        StringIsSkipped(s, i + 2);
      }
    } else {
      StringIsSkipped(s, i + 1);
    }
  }

  lemma {:induction false} PlainIsSkipped(s: string, i: nat, j: nat)
    requires i <= j <= |s| && forall k :: i <= k < j ==> s[k] != '\'' && s[k] != ';'
    ensures TerminatorFrom(s, i, false) == TerminatorFrom(s, j, false)
    decreases j - i
  {
    if i < j {
      PlainIsSkipped(s, i + 1, j);
    }
  }

  lemma TokenIsSkipped(s: string, i: nat)
    requires i < |s| && !IsSpace(s[i]) && Scan(s, i).Some? && s[i] != ';'
    ensures TerminatorFrom(s, i, false) == TerminatorFrom(s, Scan(s, i).value.1, false)
    ensures Scan(s, i).value.0.kind != Semicolon
  {
    hide FirstNamed, TerminatorFrom;
    var j := Scan(s, i).value.1;
    if s[i] == '\'' {
      StringIsSkipped(s, i + 1);
      assert TerminatorFrom(s, i, false) == TerminatorFrom(s, i + 1, true) by { QuoteOpens(s, i); }
    } else {
      PlainToken(s, i);
      PlainIsSkipped(s, i, j);
    }
  }

  lemma QuoteOpens(s: string, i: nat)
    requires i < |s| && s[i] == '\''
    ensures TerminatorFrom(s, i, false) == TerminatorFrom(s, i + 1, true)
  {
  }

  lemma PlainToken(s: string, i: nat)
    requires i < |s| && !IsSpace(s[i]) && Scan(s, i).Some? && s[i] != ';' && s[i] != '\''
    ensures forall k :: i <= k < Scan(s, i).value.1 ==> s[k] != '\'' && s[k] != ';'
  {
  }

  /** Statement splitting agrees with lexing: from any place where lexing succeeds, the
      terminator found is the offset of the first semicolon token, and none is found
      exactly when there is no such token. */
  lemma {:induction false} TerminatorIsFirstSemicolon(s: string, i: nat)
    requires i <= |s| && LexemesFrom(s, i).Some?
    ensures TerminatorFrom(s, i, false) == FirstSemicolon(LexemesFrom(s, i).value)
    decreases |s| - i
  {
    hide Scan;
    if i < |s| {
      if IsSpace(s[i]) {
        TerminatorIsFirstSemicolon(s, i + 1);
      } else {
        var read := Scan(s, i);
        TerminatorIsFirstSemicolon(s, read.value.1);
        var rest := LexemesFrom(s, read.value.1).value;
        assert ([Lexeme(read.value.0, i)] + rest)[1..] == rest;
        if s[i] == ';' {
          SemicolonScans(s, i);
        } else {
          TokenIsSkipped(s, i);
        }
      }
    }
  }

  lemma SemicolonScans(s: string, i: nat)
    requires i < |s| && s[i] == ';'
    ensures Scan(s, i) == Some((Token(Semicolon, ";"), i + 1))
  {
  }
}
