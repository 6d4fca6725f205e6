/**
 Character and string helpers: ASCII lower-casing (the day-name test), the
 code-point lexicographic order that Python uses to compare strings (the
 order in which month labels are sorted), and zero-padded decimal digits
 (the `%Y` and `%m` fields of a month label).
 */
module Text {

  predicate IsUpper(c: char) { 'A' <= c <= 'Z' }

  predicate IsLowerLetter(c: char) { 'a' <= c <= 'z' }

  /** Lower-cases one ASCII capital; every other character is left as it is. */
  function LowerChar(c: char): char
  {
    if IsUpper(c) then (c as int + 32) as char else c
  }

  /** `str.lower` restricted to ASCII: capitals become small letters, nothing else changes. */
  function Lower(s: string): (r: string)
    ensures |r| == |s|
    ensures forall i :: 0 <= i < |s| ==> !IsUpper(r[i])
    ensures forall i :: 0 <= i < |s| && !IsUpper(s[i]) ==> r[i] == s[i]
    ensures forall i :: 0 <= i < |s| && IsUpper(s[i]) ==> r[i] as int == s[i] as int + 32
  {
    seq(|s|, i requires 0 <= i < |s| => LowerChar(s[i]))
  }

  /** `s` spells the lower-case word `w`, each letter either as written or as its capital. */
  ghost predicate SpellsIgnoringCase(s: string, w: string)
  {
    && |s| == |w|
    && forall i :: 0 <= i < |s| ==> s[i] == w[i] || s[i] as int == w[i] as int - 32
  }

  /** Lower-casing `s` yields the all-letters word `w` exactly when `s` spells `w` in any mix of cases. */
  lemma LowerMatchesWord(s: string, w: string)
    requires forall i :: 0 <= i < |w| ==> IsLowerLetter(w[i])
    ensures Lower(s) == w <==> SpellsIgnoringCase(s, w)
  {
    if SpellsIgnoringCase(s, w) {
      forall i | 0 <= i < |s|
        ensures Lower(s)[i] == w[i]
      {
        assert IsLowerLetter(w[i]);
      }
    }
    if Lower(s) == w {
      forall i | 0 <= i < |s|
        ensures s[i] == w[i] || s[i] as int == w[i] as int - 32
      {
        assert LowerChar(s[i]) == w[i];
      }
    }
  }

  /** Python's `<` on `str`: code point by code point, a proper prefix first. */
  predicate LexLess(a: string, b: string)
  {
    if |b| == 0 then false
    else if |a| == 0 then true
    else a[0] < b[0] || (a[0] == b[0] && LexLess(a[1..], b[1..]))
  }

  lemma {:induction false} LexIrreflexive(a: string)
    ensures !LexLess(a, a)
  {
    if |a| > 0 {
      LexIrreflexive(a[1..]);
    }
  }

  lemma {:induction false} LexTransitive(a: string, b: string, c: string)
    requires LexLess(a, b) && LexLess(b, c)
    ensures LexLess(a, c)
  {
    if |a| > 0 && a[0] == b[0] && b[0] == c[0] {
      LexTransitive(a[1..], b[1..], c[1..]);
    }
  }

  /** Any two different strings are ordered one way or the other. */
  lemma {:induction false} LexConnected(a: string, b: string)
    requires a != b
    ensures LexLess(a, b) || LexLess(b, a)
  {
    if |a| > 0 && |b| > 0 && a[0] == b[0] {
      assert a == [a[0]] + a[1..] && b == [b[0]] + b[1..];
      LexConnected(a[1..], b[1..]);
    }
  }

  /** Comparing two strings whose heads have the same length: heads first, then tails. */
  lemma {:induction false} LexAppend(a1: string, a2: string, b1: string, b2: string)
    requires |a1| == |b1|
    ensures LexLess(a1 + a2, b1 + b2) <==> LexLess(a1, b1) || (a1 == b1 && LexLess(a2, b2))
    ensures a1 + a2 == b1 + b2 <==> a1 == b1 && a2 == b2
  {
    if |a1| > 0 {
      assert (a1 + a2)[1..] == a1[1..] + a2;
      assert (b1 + b2)[1..] == b1[1..] + b2;
      LexAppend(a1[1..], a2, b1[1..], b2);
      if a1[0] == b1[0] && a1[1..] == b1[1..] {
        assert a1 == [a1[0]] + a1[1..] && b1 == [b1[0]] + b1[1..];
      }
    } else {
      assert a1 + a2 == a2 && b1 + b2 == b2;
    }
    if a1 + a2 == b1 + b2 {
      assert a1 == (a1 + a2)[..|a1|] && b1 == (b1 + b2)[..|b1|];
      assert a2 == (a1 + a2)[|a1|..] && b2 == (b1 + b2)[|b1|..];
    }
  }

  function Pow10(n: nat): (p: nat)
    ensures p >= 1
  {
    if n == 0 then 1 else 10 * Pow10(n - 1)
  }

  function DigitChar(k: nat): char
    requires k < 10
  {
    (48 + k) as char
  }

  /**
   The last `w` decimal digits of `n`, most significant first, padded with
   leading zeros (the `%Y` field for `w == 4`, `%m` for `w == 2`).
   */
  function Digits(n: nat, w: nat): (s: string)
    ensures |s| == w
    ensures forall i :: 0 <= i < |s| ==> '0' <= s[i] <= '9'
  {
    if w == 0 then [] else Digits(n / 10, w - 1) + [DigitChar(n % 10)]
  }

  /** The number a string of decimal digits spells, most significant digit first. */
  function DecimalValue(s: string): nat
  {
    if |s| == 0 then 0
    else
      var c := s[|s| - 1];
      DecimalValue(s[..|s| - 1]) * 10 + (if '0' <= c <= '9' then c as int - 48 else 0)
  }

  /** Multiplication by a positive number is strictly monotone, with a gap of at least that number. */
  lemma {:induction false} MulGap(p: nat, x: nat, y: nat)
    requires x < y
    ensures p * x + p <= p * y
    decreases y - x
  {
    if x + 1 < y {
      MulGap(p, x + 1, y);
    }
    assert p * (x + 1) == p * x + p;
  }

  /** Quotient and remainder are unique: a decomposition with a remainder in range is the one `%` gives. */
  lemma ModUnique(n: nat, m: nat, k: nat, t: nat)
    requires m > 0 && t < m && n == m * k + t
    ensures n % m == t
  {
    var q, r := n / m, n % m;
    assert n == m * q + r;
    if q < k {
      MulGap(m, q, k);
    } else if k < q {
      MulGap(m, k, q);
    }
  }

  /** Keeping the last `w` digits of `n`: its last digit, then the last `w - 1` digits of `n / 10`. */
  lemma ModPow10Step(n: nat, w: nat)
    requires w > 0
    ensures n % Pow10(w) == (n / 10 % Pow10(w - 1)) * 10 + n % 10
  {
    var p := Pow10(w - 1);
    var q, r := n / 10, n % 10;
    var a, b := q / p, q % p;
    assert q == p * a + b;
    assert n == 10 * q + r;
    assert n == (10 * p) * a + (b * 10 + r) by {
      assert 10 * (p * a + b) == (10 * p) * a + 10 * b;
    }
    assert b * 10 + r < 10 * p by {
      assert b + 1 <= p;
      assert (b + 1) * 10 <= p * 10;
    }
    ModUnique(n, 10 * p, a, b * 10 + r);
  }

  /** `Digits(n, w)` spells the last `w` decimal digits of `n`: for a number that fits, `n` itself. */
  lemma {:induction false} DigitsValue(n: nat, w: nat)
    ensures DecimalValue(Digits(n, w)) == n % Pow10(w)
  {
    if w > 0 {
      var s := Digits(n, w);
      assert s[..w - 1] == Digits(n / 10, w - 1);
      DigitsValue(n / 10, w - 1);
      ModPow10Step(n, w);
    }
  }

  /** Digit characters are ordered, and distinct, as their values. */
  lemma DigitCharOrder(x: nat, y: nat)
    requires x < 10 && y < 10
    ensures LexLess([DigitChar(x)], [DigitChar(y)]) <==> x < y
    ensures DigitChar(x) == DigitChar(y) <==> x == y
  {
    assert [DigitChar(x)][1..] == [] && [DigitChar(y)][1..] == [];
  }

  /** Two numbers compare as their quotients by ten, then as their last digits. */
  lemma TensOrder(a: nat, b: nat)
    ensures a < b <==> a / 10 < b / 10 || (a / 10 == b / 10 && a % 10 < b % 10)
    ensures a == b <==> a / 10 == b / 10 && a % 10 == b % 10
  {
  }

  /**
   Fixed-width digit strings are ordered as the numbers they spell, and spell
   different strings for different numbers, as long as the numbers fit the width.
   */
  lemma {:induction false} DigitsOrder(a: nat, b: nat, w: nat)
    requires a < Pow10(w) && b < Pow10(w)
    ensures LexLess(Digits(a, w), Digits(b, w)) <==> a < b
    ensures Digits(a, w) == Digits(b, w) <==> a == b
  {
    if w == 0 {
      assert a == 0 && b == 0;
    } else {
      assert a / 10 < Pow10(w - 1) && b / 10 < Pow10(w - 1);
      DigitsOrder(a / 10, b / 10, w - 1);
      TensOrder(a, b);
      DigitCharOrder(a % 10, b % 10);
      LexAppend(Digits(a / 10, w - 1), [DigitChar(a % 10)], Digits(b / 10, w - 1), [DigitChar(b % 10)]);
    }
  }
}
