/** The SQL lexer (src/db/tokenizer.c). A text is a C string without its NUL; looking
    one character past the end finds nothing. */
module Tokenizer {
  import opened Text

  const MAX_TOKEN_VALUE: nat := 256

  datatype Kind =
    | Keyword | Identifier | IntLiteral | StrLiteral | Operator
    | LParen | RParen | Comma | Semicolon | Unknown

  datatype Token = Token(kind: Kind, value: string)

  /** A token and the offset of its first character. */
  datatype Lexeme = Lexeme(token: Token, start: nat)

  // ---- the readers -----------------------------------------------------------------

  const KEYWORDS: seq<string> := ["INSERT", "SELECT", "DELETE", "INTO", "FROM", "WHERE", "VALUES"]

  predicate IsKeyword(word: string) {
    FirstNamed(KEYWORDS, word).Some?
  }

  predicate FitsToken(value: string) {
    |value| < MAX_TOKEN_VALUE
  }

  /** The first offset from `i` on that is not part of a word. */
  function WordEnd(s: string, i: nat): (end: nat)
    requires i <= |s|
    ensures i <= end <= |s|
    ensures forall k :: i <= k < end ==> IsWordChar(s[k])
    ensures end < |s| ==> !IsWordChar(s[end])
    decreases |s| - i
  {
    if i < |s| && IsWordChar(s[i]) then WordEnd(s, i + 1) else i
  }

  function DigitsEnd(s: string, i: nat): (end: nat)
    requires i <= |s|
    ensures i <= end <= |s|
    ensures forall k :: i <= k < end ==> IsDigit(s[k])
    ensures end < |s| ==> !IsDigit(s[end])
    decreases |s| - i
  {
    if i < |s| && IsDigit(s[i]) then DigitsEnd(s, i + 1) else i
  }

  predicate IsSign(c: char) {
    c == '-' || c == '+'
  }

  function NumberEnd(s: string, i: nat): (end: nat)
    requires i < |s|
    ensures i <= end <= |s|
  {
    DigitsEnd(s, if IsSign(s[i]) then i + 1 else i)
  }

  predicate IsNumericStart(s: string, i: nat)
    requires i < |s|
  {
    IsDigit(s[i]) || (IsSign(s[i]) && i + 1 < |s| && IsDigit(s[i + 1]))
  }

  /** The contents of a string literal whose text goes on at `i`, and the offset after
      its closing quote; a doubled quote stands for one. */
  function StringFrom(s: string, i: nat): (read: Option<(string, nat)>)
    requires i <= |s|
    ensures read.Some? ==> i < read.value.1 <= |s|
    decreases |s| - i
  {
    if i == |s| then None
    else if s[i] == '\'' then
      if i + 1 < |s| && s[i + 1] == '\'' then
        var rest := StringFrom(s, i + 2);
        if rest.None? then None else Some(("'" + rest.value.0, rest.value.1))
      else Some(("", i + 1))
    else
      var rest := StringFrom(s, i + 1);
      if rest.None? then None else Some(([s[i]] + rest.value.0, rest.value.1))
  }

  predicate IsOperatorChar(c: char) {
    c == '!' || c == '<' || c == '>' || c == '='
  }

  function OperatorEnd(s: string, i: nat): (end: nat)
    requires i < |s|
    ensures i < end <= |s|
  {
    if s[i] != '=' && i + 1 < |s| && s[i + 1] == '=' then i + 2 else i + 1
  }

  function WordToken(word: string): (token: Token) {
    if IsKeyword(word) then Token(Keyword, Upper(word)) else Token(Identifier, word)
  }

  /** The token of a character that is a token by itself, if it is one. */
  function Punctuation(c: char): (found: Option<Token>) {
    if c == '(' then Some(Token(LParen, "("))
    else if c == ')' then Some(Token(RParen, ")"))
    else if c == ',' then Some(Token(Comma, ","))
    else if c == ';' then Some(Token(Semicolon, ";"))
    else if c == '*' then Some(Token(Identifier, "*"))
    else None
  }

  /** The token that starts at `i` and the offset after it; None if it is too long or
      a string without an end. */
  function Scan(s: string, i: nat): (read: Option<(Token, nat)>)
    requires i < |s| && !IsSpace(s[i])
    ensures read.Some? ==> i < read.value.1 <= |s|
  {
    if Punctuation(s[i]).Some? then Some((Punctuation(s[i]).value, i + 1))
    else if s[i] == '\'' then
      var read := StringFrom(s, i + 1);
      if read.None? || !FitsToken(read.value.0) then None else Some((Token(StrLiteral, read.value.0), read.value.1))
    else if IsOperatorChar(s[i]) then Some((Token(Operator, s[i..OperatorEnd(s, i)]), OperatorEnd(s, i)))
    else if IsNumericStart(s, i) then
      var end := NumberEnd(s, i);
      if !FitsToken(s[i..end]) then None else Some((Token(IntLiteral, s[i..end]), end))
    else if IsAlpha(s[i]) || s[i] == '_' then
      var end := WordEnd(s, i);
      if !FitsToken(s[i..end]) then None else Some((WordToken(s[i..end]), end))
    else Some((Token(Unknown, [s[i]]), i + 1))
  }

  /** The tokens from `i` on with their offsets. */
  function LexemesFrom(s: string, i: nat): (found: Option<seq<Lexeme>>)
    requires i <= |s|
    decreases |s| - i
  {
    if i == |s| then Some([])
    else if IsSpace(s[i]) then LexemesFrom(s, i + 1)
    else
      var read := Scan(s, i);
      if read.None? then None
      else Prepend([Lexeme(read.value.0, i)], LexemesFrom(s, read.value.1))
  }

  function TokensOf(lexemes: seq<Lexeme>): (tokens: seq<Token>)
    ensures |tokens| == |lexemes|
  {
    seq(|lexemes|, i requires 0 <= i < |lexemes| => lexemes[i].token)
  }

  /** The tokens of a whole text. */
  function Tokenize(s: string): (found: Option<seq<Token>>) {
    var lexemes := LexemesFrom(s, 0);
    if lexemes.None? then None else Some(TokensOf(lexemes.value))
  }

  // ---- the loops ------------------------------------------------------------------------

  /** `tokenizer_read_word`. */
  method ReadWord(sql: string, index: nat) returns (word: Option<string>, next: nat)
    requires index < |sql|
    ensures word == if FitsToken(sql[index..WordEnd(sql, index)]) then Some(sql[index..WordEnd(sql, index)]) else None
    ensures word.Some? ==> next == WordEnd(sql, index)
  {
    next := index;
    while next < |sql| && IsWordChar(sql[next])
      invariant index <= next <= |sql| && next - index < MAX_TOKEN_VALUE
      invariant WordEnd(sql, next) == WordEnd(sql, index)
    {
      if next - index + 1 >= MAX_TOKEN_VALUE {
        return None, next;
      }
      next := next + 1;
    }
    word := Some(sql[index..next]);
  }

  /** `tokenizer_read_number`. */
  method ReadNumber(sql: string, index: nat) returns (number: Option<string>, next: nat)
    requires index < |sql|
    ensures number == if FitsToken(sql[index..NumberEnd(sql, index)]) then Some(sql[index..NumberEnd(sql, index)])
      else None
    ensures number.Some? ==> next == NumberEnd(sql, index)
  {
    next := index;
    if IsSign(sql[next]) {
      next := next + 1;
    }
    while next < |sql| && IsDigit(sql[next])
      invariant index <= next <= |sql| && next - index < MAX_TOKEN_VALUE
      invariant DigitsEnd(sql, next) == NumberEnd(sql, index)
    {
      if next - index + 1 >= MAX_TOKEN_VALUE {
        return None, next;
      }
      next := next + 1;
    }
    number := Some(sql[index..next]);
  }

  /** What a partly read string literal comes to. */
  function Continued(buffer: string, rest: Option<(string, nat)>): (found: Option<(string, nat)>) {
    if rest.None? || !FitsToken(buffer + rest.value.0) then None else Some((buffer + rest.value.0, rest.value.1))
  }

  /** `tokenizer_read_string`; `index` is the opening quote. */
  method ReadString(sql: string, index: nat) returns (read: Option<(string, nat)>)
    requires index < |sql|
    ensures read == Continued("", StringFrom(sql, index + 1))
  {
    var buffer, i := "", index + 1;
    while i < |sql|
      invariant index < i <= |sql| && FitsToken(buffer)
      invariant Continued(buffer, StringFrom(sql, i)) == Continued("", StringFrom(sql, index + 1))
    {
      ghost var rest := StringFrom(sql, i);
      if sql[i] == '\'' {
        if i + 1 < |sql| && sql[i + 1] == '\'' {
          if |buffer| + 1 >= MAX_TOKEN_VALUE {
            return None;
          }
          ContinuedStep(buffer, "'", StringFrom(sql, i + 2));
          buffer := buffer + "'";
          i := i + 2;
          continue;
        }
        assert buffer + "" == buffer;
        return Some((buffer, i + 1));
      }
      if |buffer| + 1 >= MAX_TOKEN_VALUE {
        return None;
      }
      ContinuedStep(buffer, [sql[i]], StringFrom(sql, i + 1));
      buffer := buffer + [sql[i]];
      i := i + 1;
    }
    return None;
  }

  lemma ContinuedStep(buffer: string, c: string, rest: Option<(string, nat)>)
    ensures Continued(buffer, if rest.None? then None else Some((c + rest.value.0, rest.value.1)))
            == Continued(buffer + c, rest)
  {
    if rest.Some? {
      assert buffer + (c + rest.value.0) == buffer + c + rest.value.0;
    }
  }

  /** `utils_is_sql_keyword`. */
  method IsSqlKeyword(text: string) returns (yes: bool)
    ensures yes == IsKeyword(text)
  {
    var found := FindColumnIndex(KEYWORDS, text);
    yes := found.Some?;
  }

  /** The token at a position that is not white space, as the body of the loop of
      `tokenizer_tokenize_sql` reads it. */
  method ReadToken(sql: string, i: nat) returns (read: Option<(Token, nat)>)
    requires i < |sql| && !IsSpace(sql[i])
    ensures read == Scan(sql, i)
  {
    hide WordEnd, DigitsEnd, StringFrom, FirstNamed;
    var c := sql[i];
    if c == '(' {
      return Some((Token(LParen, "("), i + 1));
    }
    if c == ')' {
      return Some((Token(RParen, ")"), i + 1));
    }
    if c == ',' {
      return Some((Token(Comma, ","), i + 1));
    }
    if c == ';' {
      return Some((Token(Semicolon, ";"), i + 1));
    }
    if c == '*' {
      return Some((Token(Identifier, "*"), i + 1));
    }
    if c == '\'' {
      var content := ReadString(sql, i);
      ghost var text := StringFrom(sql, i + 1);
      assert text.Some? ==> "" + text.value.0 == text.value.0;
      return if content.None? then None else Some((Token(StrLiteral, content.value.0), content.value.1));
    }
    if c == '!' || c == '<' || c == '>' || c == '=' {
      if (c == '!' || c == '<' || c == '>') && i + 1 < |sql| && sql[i + 1] == '=' {
        assert sql[i..i + 2] == [c, '='];
        return Some((Token(Operator, [c, '=']), i + 2));
      }
      assert sql[i..i + 1] == [c];
      return Some((Token(Operator, [c]), i + 1));
    }
    if IsNumericStart(sql, i) {
      var number, next := ReadNumber(sql, i);
      return if number.None? then None else Some((Token(IntLiteral, number.value), next));
    }
    if IsAlpha(c) || c == '_' {
      var word, next := ReadWord(sql, i);
      if word.None? {
        return None;
      }
      var keyword := IsSqlKeyword(word.value);
      return Some((if keyword then Token(Keyword, Upper(word.value)) else Token(Identifier, word.value), next));
    }
    return Some((Token(Unknown, [c]), i + 1));
  }

  /** `tokenizer_tokenize_sql`. */
  method TokenizeSql(sql: string) returns (tokens: Option<seq<Token>>)
    ensures tokens == Tokenize(sql)
  {
    hide Scan;
    var found: seq<Token>, i := [], 0;
    ghost var lexemes: seq<Lexeme>, all := [], LexemesFrom(sql, 0);
    assert all.Some? ==> [] + all.value == all.value;
    while i < |sql|
      invariant 0 <= i <= |sql| && found == TokensOf(lexemes)
      invariant all == Prepend(lexemes, LexemesFrom(sql, i))
      decreases |sql| - i
    {
      if IsSpace(sql[i]) {
        i := i + 1;
        continue;
      }
      var read := ReadToken(sql, i);
      if read.None? {
        return None;
      }
      PrependTwice(lexemes, [Lexeme(read.value.0, i)], LexemesFrom(sql, read.value.1));
      lexemes := lexemes + [Lexeme(read.value.0, i)];
      found := found + [read.value.0];
      i := read.value.1;
    }
    assert lexemes + [] == lexemes;
    return Some(found);
  }
}
