/** The string helpers of src/common/utils.c. A C string is the sequence of its
    bytes before the terminating NUL, so the loops stop at the length. */
module Text {
  const LLONG_MAX: int := 0x7FFF_FFFF_FFFF_FFFF
  const LLONG_MIN: int := -0x8000_0000_0000_0000
  const INT_MAX: int := 0x7FFF_FFFF

  datatype Option<+T> = None | Some(value: T)

  // ---- lists read one after another ---------------------------------------------

  /** `first` before `rest`, unless the rest failed. */
  function Prepend<T>(first: seq<T>, rest: Option<seq<T>>): (found: Option<seq<T>>) {
    if rest.None? then None else Some(first + rest.value)
  }

  lemma PrependNothing<T>(rest: Option<seq<T>>)
    ensures Prepend([], rest) == rest
  {
    if rest.Some? {
      assert [] + rest.value == rest.value;
    }
  }

  lemma PrependTwice<T>(a: seq<T>, b: seq<T>, rest: Option<seq<T>>)
    ensures Prepend(a, Prepend(b, rest)) == Prepend(a + b, rest)
  {
    if rest.Some? {
      assert a + (b + rest.value) == (a + b) + rest.value;
    }
  }

  lemma JoinTwice<T>(a: seq<T>, b: seq<T>, c: seq<T>)
    ensures a + b + c == a + (b + c)
  {
  }

  // ---- character classes of the C locale --------------------------------------

  predicate IsSpace(c: char) {
    c == ' ' || '\t' <= c <= '\r'
  }

  predicate IsDigit(c: char) {
    '0' <= c <= '9'
  }

  predicate IsAlpha(c: char) {
    'a' <= c <= 'z' || 'A' <= c <= 'Z'
  }

  function ToUpper(c: char): (upper: char) {
    if 'a' <= c <= 'z' then c - 'a' + 'A' else c
  }

  /** A character of an identifier or keyword. */
  predicate IsWordChar(c: char) {
    IsAlpha(c) || IsDigit(c) || c == '_'
  }

  // ---- case-insensitive equality -----------------------------------------------

  function Upper(s: string): (u: string)
    ensures |u| == |s|
  {
    seq(|s|, i requires 0 <= i < |s| => ToUpper(s[i]))
  }

  /** Equality up to the case of ASCII letters; an equivalence by construction. */
  predicate SameName(a: string, b: string) {
    Upper(a) == Upper(b)
  }

  /** `utils_equals_ignore_case`. */
  method EqualsIgnoreCase(lhs: string, rhs: string) returns (same: bool)
    ensures same == SameName(lhs, rhs)
  {
    var i := 0;
    while i < |lhs| && i < |rhs|
      invariant 0 <= i <= |lhs| && i <= |rhs|
      invariant forall j :: 0 <= j < i ==> ToUpper(lhs[j]) == ToUpper(rhs[j])
    {
      if ToUpper(lhs[i]) != ToUpper(rhs[i]) {
        assert Upper(lhs)[i] != Upper(rhs)[i];
        return false;
      }
      i := i + 1;
    }
    same := i == |lhs| && i == |rhs|;
    assert |Upper(lhs)| == |lhs| && |Upper(rhs)| == |rhs|;
  }

  /** The first name in `names` equal to `target` up to case. */
  function FirstNamed(names: seq<string>, target: string): (found: Option<nat>)
    ensures found.Some? ==> found.value < |names| && SameName(names[found.value], target)
    ensures found.Some? ==> forall j :: 0 <= j < found.value ==> !SameName(names[j], target)
    ensures found.None? ==> forall j :: 0 <= j < |names| ==> !SameName(names[j], target)
  {
    if names == [] then None
    else if SameName(names[0], target) then Some(0)
    else
      var rest := FirstNamed(names[1..], target);
      if rest.None? then None else Some(rest.value + 1)
  }

  lemma FirstNamedSame(names: seq<string>, a: string, b: string)
    requires SameName(a, b)
    ensures FirstNamed(names, a) == FirstNamed(names, b)
  {
    var x, y := FirstNamed(names, a), FirstNamed(names, b);
    if x.Some? && y.Some? {
      assert !(x.value < y.value) && !(y.value < x.value);
    }
  }

  /** The column lookup loop that storage, runtime and executor each repeat. */
  method FindColumnIndex(columns: seq<string>, target: string) returns (found: Option<nat>)
    ensures found == FirstNamed(columns, target)
  {
    var i := 0;
    while i < |columns|
      invariant 0 <= i <= |columns|
      invariant forall j :: 0 <= j < i ==> !SameName(columns[j], target)
    {
      var same := EqualsIgnoreCase(columns[i], target);
      if same {
        return Some(i);
      }
      i := i + 1;
    }
    return None;
  }

  // ---- integer literals ----------------------------------------------------------

  predicate AllDigits(s: string) {
    forall i :: 0 <= i < |s| ==> IsDigit(s[i])
  }

  predicate HasSign(s: string) {
    s != "" && (s[0] == '-' || s[0] == '+')
  }

  function DigitsOf(s: string): (text: string) {
    if HasSign(s) then s[1..] else s
  }

  /** An optional sign followed by at least one digit and nothing else. */
  predicate IsIntegerText(s: string) {
    DigitsOf(s) != "" && AllDigits(DigitsOf(s))
  }

  /** `utils_is_integer`. */
  method IsInteger(text: string) returns (yes: bool)
    ensures yes == IsIntegerText(text)
  {
    if text == "" {
      return false;
    }
    var i := 0;
    if text[0] == '-' || text[0] == '+' {
      if |text| == 1 {
        return false;
      }
      i := 1;
    }
    ghost var start := i;
    while i < |text|
      invariant start <= i <= |text|
      invariant forall j :: start <= j < i ==> IsDigit(text[j])
    {
      if !IsDigit(text[i]) {
        assert DigitsOf(text)[i - start] == text[i];
        return false;
      }
      i := i + 1;
    }
    return true;
  }

  /** The number a digit string spells. */
  function DigitsValue(s: string): (v: nat)
    requires AllDigits(s)
  {
    if s == "" then 0 else 10 * DigitsValue(s[..|s| - 1]) + (s[|s| - 1] - '0') as int
  }

  function Clamp(v: int): (n: int) {
    if v > LLONG_MAX then LLONG_MAX else if v < LLONG_MIN then LLONG_MIN else v
  }

  /** `utils_parse_integer` on a validated literal: `strtoll`, which clamps. */
  function ParseInteger(s: string): (v: int)
    requires IsIntegerText(s)
    ensures LLONG_MIN <= v <= LLONG_MAX
  {
    var magnitude: int := DigitsValue(DigitsOf(s));
    Clamp(if s[0] == '-' then -magnitude else magnitude)
  }

  function DigitChar(d: nat): (digit: char)
    requires d < 10
  {
    '0' + d as char
  }

  /** The `%lld` conversion of a number that is not negative. */
  function Decimal(n: nat): (s: string)
    ensures s != "" && AllDigits(s)
  {
    if n < 10 then [DigitChar(n)] else Decimal(n / 10) + [DigitChar(n % 10)]
  }

  lemma {:induction false} DecimalValue(n: nat)
    ensures DigitsValue(Decimal(n)) == n
  {
    if n >= 10 {
      DecimalValue(n / 10);
      assert Decimal(n)[..|Decimal(n)| - 1] == Decimal(n / 10);
    } else {
      assert Decimal(n)[..0] == "";
    }
  }

  /** Printing an id and parsing it back gives the id. */
  lemma DecimalRoundTrip(n: nat)
    requires n <= LLONG_MAX
    ensures IsIntegerText(Decimal(n)) && ParseInteger(Decimal(n)) == n
  {
    DecimalValue(n);
    assert IsDigit(Decimal(n)[0]);
  }

  lemma DecimalLength(n: nat)
    requires n <= INT_MAX
    ensures |Decimal(n)| <= 10
  {
    var n1 := n / 10;
    var n2 := n1 / 10;
    var n3 := n2 / 10;
    var n4 := n3 / 10;
    var n5 := n4 / 10;
    var n6 := n5 / 10;
    var n7 := n6 / 10;
    var n8 := n7 / 10;
    var n9 := n8 / 10;
    assert n9 < 10;
    assert |Decimal(n8)| <= 2 && |Decimal(n7)| <= 3 && |Decimal(n6)| <= 4 && |Decimal(n5)| <= 5;
    assert |Decimal(n4)| <= 6 && |Decimal(n3)| <= 7 && |Decimal(n2)| <= 8 && |Decimal(n1)| <= 9;
  }

  // ---- value comparison -------------------------------------------------------------

  /** The sign of `strcmp`. */
  function StrCmp(a: string, b: string): (sign: int)
    ensures -1 <= sign <= 1
  {
    if a == [] then (if b == [] then 0 else -1)
    else if b == [] then 1
    else if a[0] < b[0] then -1
    else if b[0] < a[0] then 1
    else StrCmp(a[1..], b[1..])
  }

  /** The sign `utils_compare_values` returns: by number when both are integers. */
  function Compare(lhs: string, rhs: string): (sign: int)
    ensures -1 <= sign <= 1
  {
    if IsIntegerText(lhs) && IsIntegerText(rhs) then
      var l, r := ParseInteger(lhs), ParseInteger(rhs);
      if l < r then -1 else if l > r then 1 else 0
    else StrCmp(lhs, rhs)
  }

  method CompareValues(lhs: string, rhs: string) returns (sign: int)
    ensures sign == Compare(lhs, rhs)
  {
    var leftInteger := IsInteger(lhs);
    var rightInteger := IsInteger(rhs);
    if leftInteger && rightInteger {
      var leftNumber := ParseInteger(lhs);
      var rightNumber := ParseInteger(rhs);
      if leftNumber < rightNumber {
        return -1;
      }
      if leftNumber > rightNumber {
        return 1;
      }
      return 0;
    }
    return StrCmp(lhs, rhs);
  }

  // ---- trimming ------------------------------------------------------------------------

  function TrimRight(s: string): (t: string)
    ensures t == "" || !IsSpace(t[|t| - 1])
  {
    if s != "" && IsSpace(s[|s| - 1]) then TrimRight(s[..|s| - 1]) else s
  }

  function TrimLeft(s: string): (t: string)
    ensures t == "" || !IsSpace(t[0])
  {
    if s != "" && IsSpace(s[0]) then TrimLeft(s[1..]) else s
  }

  /** The text without leading and trailing white space. */
  function Trimmed(s: string): (text: string) {
    TrimLeft(TrimRight(s))
  }

  /** Only white space goes, and only at the front. */
  lemma {:induction false} TrimLeftKeepsSuffix(s: string)
    ensures var t := TrimLeft(s);
            |t| <= |s| && t == s[|s| - |t|..] && forall i :: 0 <= i < |s| - |t| ==> IsSpace(s[i])
  {
    if s != "" && IsSpace(s[0]) {
      TrimLeftKeepsSuffix(s[1..]);
    }
  }

  /** Trimming is idempotent: what is left neither starts nor ends with a space. */
  lemma TrimmedIsTrimmed(s: string)
    ensures Trimmed(Trimmed(s)) == Trimmed(s)
    ensures Trimmed(s) != "" ==> !IsSpace(Trimmed(s)[0]) && !IsSpace(Trimmed(s)[|Trimmed(s)| - 1])
  {
    var r := TrimRight(s);
    var t := TrimLeft(r);
    TrimLeftKeepsSuffix(r);
    if t != "" {
      assert t[|t| - 1] == r[|r| - 1];
    }
  }

  /** The first loop of `utils_trim`. */
  method TrimEnd(text: array<char>, length: nat) returns (newLength: nat)
    requires length <= text.Length
    ensures newLength <= length && text[..newLength] == TrimRight(text[..length])
  {
    newLength := length;
    while newLength > 0 && IsSpace(text[newLength - 1])
      invariant newLength <= length
      invariant TrimRight(text[..newLength]) == TrimRight(text[..length])
    {
      assert text[..newLength][..newLength - 1] == text[..newLength - 1];
      newLength := newLength - 1;
    }
  }

  /** The second loop of `utils_trim`. */
  method LeadingSpaces(text: array<char>, length: nat) returns (start: nat)
    requires length <= text.Length
    ensures start <= length && text[start..length] == TrimLeft(text[..length])
  {
    start := 0;
    while start < length && IsSpace(text[start])
      invariant start <= length
      invariant TrimLeft(text[start..length]) == TrimLeft(text[..length])
    {
      assert text[start..length][1..] == text[start + 1..length];
      start := start + 1;
    }
  }

  /** The `memmove` at the end of `utils_trim`. */
  method MoveToFront(text: array<char>, start: nat, length: nat)
    requires start <= length <= text.Length
    modifies text
    ensures text[..length - start] == old(text[start..length])
  {
    var i := 0;
    while i < length - start
      invariant 0 <= i <= length - start
      invariant forall j :: 0 <= j < i ==> text[j] == old(text[start + j])
      invariant forall j :: start + i <= j < length ==> text[j] == old(text[j])
    {
      text[i] := text[start + i];
      i := i + 1;
    }
  }

  /** `utils_trim` on a buffer of `length` characters: shortens it from the right,
      then moves the rest to the front. */
  method TrimInPlace(text: array<char>, length: nat) returns (newLength: nat)
    requires length <= text.Length
    modifies text
    ensures newLength <= length && text[..newLength] == Trimmed(old(text[..length]))
  {
    hide TrimRight, TrimLeft;
    newLength := TrimEnd(text, length);
    var start := LeadingSpaces(text, newLength);
    MoveToFront(text, start, newLength);
    newLength := newLength - start;
  }
}
