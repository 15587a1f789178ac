/** What the text helpers mean, letter by letter: white space, digits and letters of the
    C locale, names that differ in case, and the order of texts. Each is stated here over
    the characters themselves. */
module Alphabet {
  import opened Text

  const SMALL: string := "abcdefghijklmnopqrstuvwxyz"
  const CAPITAL: string := "ABCDEFGHIJKLMNOPQRSTUVWXYZ"

  /** Blank, tab, newline, vertical tab, form feed and carriage return. */
  predicate White(c: char) {
    c == ' ' || c == '\t' || c == '\n' || c == '\U{0B}' || c == '\U{0C}' || c == '\r'
  }

  lemma SpacesAre(c: char)
    ensures IsSpace(c) <==> White(c)
  {
    if '\t' <= c <= '\r' {
      assert c as int == 9 || c as int == 10 || c as int == 11 || c as int == 12 || c as int == 13;
    }
  }

  lemma DigitsAre(c: char)
    ensures IsDigit(c) <==> c in "0123456789"
  {
    if IsDigit(c) {
      var k := (c - '0') as int;
      assert "0123456789"[k] == c;
    }
  }

  lemma LettersAre(c: char)
    ensures IsAlpha(c) <==> c in SMALL || c in CAPITAL
    ensures IsWordChar(c) <==> c in SMALL || c in CAPITAL || c in "0123456789" || c == '_'
  {
    DigitsAre(c);
    if 'a' <= c <= 'z' {
      assert SMALL[(c - 'a') as int] == c by { AlphabetAt((c - 'a') as int); }
    }
    if 'A' <= c <= 'Z' {
      assert CAPITAL[(c - 'A') as int] == c by { AlphabetAt((c - 'A') as int); }
    }
    if c in SMALL {
      var k :| 0 <= k < |SMALL| && SMALL[k] == c;
      AlphabetAt(k);
    }
    if c in CAPITAL {
      var k :| 0 <= k < |CAPITAL| && CAPITAL[k] == c;
      AlphabetAt(k);
    }
  }

  /** The letters stand in the order of their codes. */
  lemma AlphabetAt(k: nat)
    requires k < 26
    ensures |SMALL| == |CAPITAL| == 26
    ensures SMALL[k] as int == 97 + k && CAPITAL[k] as int == 65 + k
  {
  }

  /** The character is letter `k` of the alphabet, in either case. */
  predicate IsLetter(c: char, k: nat) {
    k < 26 && (c == SMALL[k] || c == CAPITAL[k])
  }

  /** The same character, or one letter in its two cases. */
  ghost predicate SameLetter(a: char, b: char) {
    a == b || exists k :: IsLetter(a, k) && IsLetter(b, k)
  }

  lemma LetterCode(c: char, k: nat)
    ensures IsLetter(c, k) <==> k < 26 && (c as int == 97 + k || c as int == 65 + k)
  {
    if k < 26 {
      AlphabetAt(k);
    }
  }

  lemma SameLetterExactly(a: char, b: char)
    ensures ToUpper(a) == ToUpper(b) <==> SameLetter(a, b)
  {
    hide IsLetter;
    if a != b && ToUpper(a) == ToUpper(b) {
      var k: nat := if 'a' <= a <= 'z' then (a - 'a') as int else (b - 'a') as int;
      LetterCode(a, k);
      LetterCode(b, k);
    }
    if k: nat :| IsLetter(a, k) && IsLetter(b, k) {
      LetterCode(a, k);
      LetterCode(b, k);
    }
  }

  /** The texts have the same letters, whatever their case. */
  ghost predicate Alike(a: string, b: string) {
    |a| == |b| && forall i :: 0 <= i < |a| ==> SameLetter(a[i], b[i])
  }

  /** Names are the same exactly when they are alike. */
  lemma SameNameExactly(a: string, b: string)
    ensures SameName(a, b) <==> Alike(a, b)
  {
    hide ToUpper, SameLetter;
    if |a| == |b| {
      forall i | 0 <= i < |a| ensures Upper(a)[i] == Upper(b)[i] <==> SameLetter(a[i], b[i]) {
        SameLetterExactly(a[i], b[i]);
      }
      if Upper(a) != Upper(b) {
        assert exists i :: 0 <= i < |a| && Upper(a)[i] != Upper(b)[i];
      }
    } else {
      assert |Upper(a)| != |Upper(b)|;
    }
  }

  lemma AlikeTurned(a: string, b: string)
    ensures Alike(a, b) <==> Alike(b, a)
  {
    hide Alike, Upper;
    SameNameExactly(a, b);
    SameNameExactly(b, a);
  }

  // ---- the order of texts ---------------------------------------------------------------

  /** `a` comes before `b`: at the first place where they differ it has the smaller
      character, or it ends there. */
  ghost predicate Before(a: string, b: string) {
    exists k :: DiffersAt(a, b, k)
  }

  predicate DiffersAt(a: string, b: string, k: nat) {
    k <= |a| && k < |b| && a[..k] == b[..k] && (k == |a| || a[k] < b[k])
  }

  lemma FirstAgree(a: string, b: string, k: nat)
    requires DiffersAt(a, b, k)
    ensures k > 0 ==> a != "" && b != "" && a[0] == b[0]
  {
    if k > 0 {
      assert a[0] == a[..k][0] && b[0] == b[..k][0];
    }
  }

  /** `strcmp` is the order of a dictionary. */
  lemma {:induction false} StrCmpExactly(a: string, b: string)
    ensures StrCmp(a, b) < 0 <==> Before(a, b)
    ensures StrCmp(a, b) > 0 <==> Before(b, a)
    ensures StrCmp(a, b) == 0 <==> a == b
  {
    if a != "" && b != "" && a[0] == b[0] {
      StrCmpExactly(a[1..], b[1..]);
      BeforeTail(a, b);
      BeforeTail(b, a);
    } else {
      assert a[..0] == b[..0] == "";
      assert a != "" || b != "" ==> DiffersAt(a, b, 0) || DiffersAt(b, a, 0);
      forall k: nat | DiffersAt(a, b, k) || DiffersAt(b, a, k) ensures k == 0 {
        if DiffersAt(a, b, k) {
          FirstAgree(a, b, k);
        } else {
          FirstAgree(b, a, k);
        }
      }
    }
  }

  lemma BeforeTail(a: string, b: string)
    requires a != "" && b != "" && a[0] == b[0]
    ensures Before(a, b) <==> Before(a[1..], b[1..])
  {
    if k: nat :| DiffersAt(a, b, k) {
      assert k > 0;
      assert a[1..][..k - 1] == a[..k][1..] && b[1..][..k - 1] == b[..k][1..];
      assert DiffersAt(a[1..], b[1..], k - 1);
    }
    if k: nat :| DiffersAt(a[1..], b[1..], k) {
      assert a[..k + 1] == [a[0]] + a[1..][..k] && b[..k + 1] == [b[0]] + b[1..][..k];
      assert DiffersAt(a, b, k + 1);
    }
  }
}
