/** Numbers and their texts: what an id prints as, which texts a condition reads as
    numbers, and that it compares them as numbers. */
module Numbers {
  import opened Text
  import opened Alphabet

  // ---- decimal texts ------------------------------------------------------------------

  lemma DecimalLengths(n: nat)
    ensures n >= 10 <==> |Decimal(n)| > 1
    ensures n >= 10 ==> |Decimal(n)| == |Decimal(n / 10)| + 1
  {
  }

  lemma {:induction false} StrCmpLast(a: string, b: string, c: char, d: char)
    requires |a| == |b|
    ensures StrCmp(a + [c], b + [d])
            == if StrCmp(a, b) != 0 then StrCmp(a, b) else if c < d then -1 else if d < c then 1 else 0
  {
    if a != "" {
      assert (a + [c])[1..] == a[1..] + [c] && (b + [d])[1..] == b[1..] + [d];
      StrCmpLast(a[1..], b[1..], c, d);
    } else {
      assert (a + [c])[1..] == (b + [d])[1..] == "";
    }
  }

  /** Between texts of one length the numbers stand in the order of the texts. */
  lemma {:induction false} SameLengthOrder(m: nat, n: nat)
    requires |Decimal(m)| == |Decimal(n)|
    ensures StrCmp(Decimal(m), Decimal(n)) == if m < n then -1 else if n < m then 1 else 0
    decreases m
  {
    DecimalLengths(m);
    DecimalLengths(n);
    if m >= 10 {
      SameLengthOrder(m / 10, n / 10);
      StrCmpLast(Decimal(m / 10), Decimal(n / 10), DigitChar(m % 10), DigitChar(n % 10));
    } else {
      StrCmpLast("", "", DigitChar(m), DigitChar(n));
      assert Decimal(m) == "" + [DigitChar(m)] && Decimal(n) == "" + [DigitChar(n)];
    }
  }

  lemma {:induction false} LongerIsLarger(m: nat, n: nat)
    requires |Decimal(m)| < |Decimal(n)|
    ensures m < n
    decreases m
  {
    DecimalLengths(m);
    DecimalLengths(n);
    if m >= 10 {
      LongerIsLarger(m / 10, n / 10);
    }
  }

  lemma {:induction false} NoLeadingZero(n: nat)
    ensures Decimal(n)[0] in "0123456789" && (Decimal(n)[0] == '0' <==> n == 0)
  {
    if n >= 10 {
      NoLeadingZero(n / 10);
    } else {
      assert "0123456789"[n] == DigitChar(n);
    }
  }

  /** The decimal texts stand for the numbers in order: shorter texts first, and texts of
      one length as in a dictionary. */
  lemma DecimalOrder(m: nat, n: nat)
    ensures m < n <==>
            |Decimal(m)| < |Decimal(n)| || (|Decimal(m)| == |Decimal(n)| && Before(Decimal(m), Decimal(n)))
  {
    hide Decimal, StrCmp, Before;
    if |Decimal(m)| == |Decimal(n)| {
      SameLengthOrder(m, n);
      StrCmpExactly(Decimal(m), Decimal(n));
    } else if |Decimal(m)| < |Decimal(n)| {
      LongerIsLarger(m, n);
    } else {
      LongerIsLarger(n, m);
    }
  }

  /** Every digit text without a leading zero is one of them, so the order above leaves
      no choice which text stands for which number. */
  lemma {:induction false} DecimalIsOnto(s: string)
    requires s != "" && AllDigits(s) && (|s| > 1 ==> s[0] != '0')
    ensures Decimal(DigitsValue(s)) == s
  {
    var front, last := s[..|s| - 1], s[|s| - 1];
    if |s| > 1 {
      DecimalIsOnto(front);
      PositiveValue(front);
      assert s == front + [last];
    } else {
      assert front == "" && s == [last];
    }
  }

  lemma {:induction false} PositiveValue(s: string)
    requires s != "" && AllDigits(s) && s[0] != '0'
    ensures DigitsValue(s) >= 1
  {
    if |s| > 1 {
      PositiveValue(s[..|s| - 1]);
    }
  }

  // ---- integer texts -------------------------------------------------------------------

  function Zeros(n: nat): (zeros: string)
    ensures |zeros| == n && AllDigits(zeros)
  {
    seq(n, _ => '0')
  }

  function Magnitude(x: int): (n: nat) {
    if x < 0 then -x else x
  }

  predicate SignFits(sign: string, x: int) {
    sign == (if x < 0 then "-" else "") || (x >= 0 && sign == "+") || (x == 0 && sign == "-")
  }

  /** The text says `x`: a sign where one is due, any number of zeros, and the digits. */
  ghost predicate Spells(s: string, x: int) {
    exists sign, zeros :: SignFits(sign, x) && s == sign + Zeros(zeros) + Decimal(Magnitude(x))
  }

  lemma {:induction false} ZerosAreNothing(zeros: nat, digits: string)
    requires AllDigits(digits)
    ensures AllDigits(Zeros(zeros) + digits) && DigitsValue(Zeros(zeros) + digits) == DigitsValue(digits)
    decreases zeros + |digits|
  {
    var all := Zeros(zeros) + digits;
    if digits != "" {
      assert all[..|all| - 1] == Zeros(zeros) + digits[..|digits| - 1];
      ZerosAreNothing(zeros, digits[..|digits| - 1]);
    } else if zeros > 0 {
      assert all[..|all| - 1] == Zeros(zeros - 1) + "";
      ZerosAreNothing(zeros - 1, "");
    }
  }

  /** The number that an integer text is read as: the one it says, within 64 bits. */
  function Within64(x: int): (n: int) {
    if x > 9223372036854775807 then 9223372036854775807
    else if x < -9223372036854775808 then -9223372036854775808
    else x
  }

  lemma SpelledDigits(sign: string, zeros: nat, x: int)
    requires SignFits(sign, x)
    ensures var s := sign + Zeros(zeros) + Decimal(Magnitude(x));
            && IsIntegerText(s) && DigitsValue(DigitsOf(s)) == Magnitude(x) && (s[0] == '-' <==> sign == "-")
  {
    hide Decimal, DigitsValue, Zeros;
    var digits := Zeros(zeros) + Decimal(Magnitude(x));
    var s := sign + Zeros(zeros) + Decimal(Magnitude(x));
    JoinTwice(sign, Zeros(zeros), Decimal(Magnitude(x)));
    ZerosAreNothing(zeros, Decimal(Magnitude(x)));
    DecimalValue(Magnitude(x));
    assert IsDigit(digits[0]);
    if sign == "" {
      assert s == digits;
    } else {
      assert s[1..] == digits;
    }
  }

  /** An integer text is read as the number it says, clamped to 64 bits. */
  lemma SpelledIsRead(s: string, x: int)
    requires Spells(s, x)
    ensures IsIntegerText(s) && ParseInteger(s) == Within64(x)
  {
    var sign, zeros :| SignFits(sign, x) && s == sign + Zeros(zeros) + Decimal(Magnitude(x));
    SpelledDigits(sign, zeros, x);
    hide Decimal, DigitsValue;
  }

  lemma {:induction false} StripZeros(digits: string) returns (zeros: nat, rest: string)
    requires digits != "" && AllDigits(digits)
    ensures digits == Zeros(zeros) + rest && rest != "" && AllDigits(rest) && (|rest| > 1 ==> rest[0] != '0')
  {
    if |digits| > 1 && digits[0] == '0' {
      zeros, rest := StripZeros(digits[1..]);
      zeros := zeros + 1;
      assert Zeros(zeros) == ['0'] + Zeros(zeros - 1);
      assert digits == ['0'] + digits[1..];
    } else {
      zeros, rest := 0, digits;
    }
  }

  /** The texts that count as integers are exactly those that say a number. */
  lemma IntegerTextsSpell(s: string)
    ensures IsIntegerText(s) <==> exists x :: Spells(s, x)
  {
    hide Decimal;
    if IsIntegerText(s) {
      var zeros, rest := StripZeros(DigitsOf(s));
      DecimalIsOnto(rest);
      var n: int := DigitsValue(rest);
      var sign := if HasSign(s) then [s[0]] else "";
      var x: int := if sign == "-" then -n else n;
      assert s == sign + DigitsOf(s);
      JoinTwice(sign, Zeros(zeros), rest);
      assert SignFits(sign, x) && s == sign + Zeros(zeros) + Decimal(Magnitude(x));
      assert Spells(s, x);
    }
    if x :| Spells(s, x) {
      SpelledIsRead(s, x);
    }
  }

  /** Conditions compare texts that say numbers as those numbers. */
  lemma ComparesNumbers(s: string, t: string, x: int, y: int)
    requires Spells(s, x) && Spells(t, y)
    ensures Compare(s, t) < 0 <==> Within64(x) < Within64(y)
    ensures Compare(s, t) == 0 <==> Within64(x) == Within64(y)
    ensures Compare(s, t) > 0 <==> Within64(x) > Within64(y)
  {
    hide Spells, Within64, IsIntegerText, ParseInteger;
    SpelledIsRead(s, x);
    SpelledIsRead(t, y);
  }

  /** A text that says no number is compared letter by letter. */
  lemma ComparesTexts(s: string, t: string)
    requires (forall x :: !Spells(s, x)) || (forall y :: !Spells(t, y))
    ensures Compare(s, t) < 0 <==> Before(s, t)
    ensures Compare(s, t) == 0 <==> s == t
    ensures Compare(s, t) > 0 <==> Before(t, s)
  {
    hide Spells, IsIntegerText, StrCmp, Before;
    IntegerTextsSpell(s);
    IntegerTextsSpell(t);
    StrCmpExactly(s, t);
  }
}
