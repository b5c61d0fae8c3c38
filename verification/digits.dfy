/** Decimal digits of a clock reading: how many there are, and what the
    last few of them read back as. */
module Digits {
  import opened Basics

  function Pow10(k: nat): (p: nat)
    ensures p >= 1
  {
    if k == 0 then 1 else 10 * Pow10(k - 1)
  }

  lemma Pow10Four()
    ensures Pow10(4) == 10000
  {
  }

  /** A number's decimal rendering has at least four digits exactly from 1000 on. */
  lemma {:induction false} NatToStringLength(n: nat)
    ensures n < Pow10(|NatToString(n)|)
    ensures |NatToString(n)| >= 4 <==> n >= 1000
    decreases n
  {
    if n >= 10 {
      NatToStringLength(n / 10);
    }
  }

  lemma ParseSnoc(s: string, c: char)
    ensures ParseDecimal(s + [c]) == ParseDecimal(s) * 10 + (c as int - '0' as int)
  {
    assert (s + [c])[..|s|] == s;
  }

  lemma MulAtLeast(x: int, m: int)
    requires x >= 1 && m >= 0
    ensures x * m >= m
  {
    assert x * m == (x - 1) * m + m;
    assert (x - 1) * m >= 0;
  }

  /** Quotient and remainder are unique. */
  lemma ModUnique(n: int, m: int, a: int, b: int)
    requires m >= 1 && 0 <= b < m && n == a * m + b
    ensures n % m == b
  {
    var q, r := n / m, n % m;
    assert n == q * m + r;
    assert (q - a) * m == b - r by {
      assert q * m + r == a * m + b;
      assert (q - a) * m == q * m - a * m;
    }
    if q > a {
      MulAtLeast(q - a, m);
    } else if q < a {
      MulAtLeast(a - q, m);
    }
  }

  predicate AllDigits(s: string) {
    forall i | 0 <= i < |s| :: '0' <= s[i] <= '9'
  }

  /** `x` followed by `k` zeros: multiplication by `10^k`, one digit at a time. */
  function Shift(x: int, k: nat): int
    decreases k
  {
    if k == 0 then x else Shift(x, k - 1) * 10
  }

  lemma {:induction false} ShiftIsMul(x: int, k: nat)
    ensures Shift(x, k) == x * Pow10(k)
    decreases k
  {
    if k > 0 {
      ShiftIsMul(x, k - 1);
      assert x * (10 * Pow10(k - 1)) == (x * Pow10(k - 1)) * 10;
    }
  }

  lemma AppendSnoc(a: string, b: string)
    requires |b| >= 1
    ensures a + b == (a + b[..|b| - 1]) + [b[|b| - 1]]
    ensures b == b[..|b| - 1] + [b[|b| - 1]]
  {
  }

  lemma ParseAppendStep(a: string, b: string)
    requires |b| >= 1
    requires ParseDecimal(a + b[..|b| - 1]) == Shift(ParseDecimal(a), |b| - 1) + ParseDecimal(b[..|b| - 1])
    ensures ParseDecimal(a + b) == Shift(ParseDecimal(a), |b|) + ParseDecimal(b)
  {
    var init, c := b[..|b| - 1], b[|b| - 1];
    AppendSnoc(a, b);
    ParseSnoc(a + init, c);
    ParseSnoc(init, c);
  }

  /** Reading a concatenation: the front is shifted by one digit per
      character of the back. */
  lemma {:induction false} ParseAppend(a: string, b: string)
    ensures ParseDecimal(a + b) == Shift(ParseDecimal(a), |b|) + ParseDecimal(b)
    decreases |b|
  {
    if |b| == 0 {
      assert a + b == a;
    } else {
      ParseAppend(a, b[..|b| - 1]);
      ParseAppendStep(a, b);
    }
  }

  /** A string of `k` digits reads below `10^k`. */
  lemma {:induction false} ParseBound(b: string)
    requires AllDigits(b)
    ensures 0 <= ParseDecimal(b) < Pow10(|b|)
    decreases |b|
  {
    if |b| > 0 {
      ParseBound(b[..|b| - 1]);
    }
  }

  lemma {:induction false} Pow10Monotone(i: nat, j: nat)
    requires i <= j
    ensures Pow10(i) <= Pow10(j)
    decreases j
  {
    if i < j {
      Pow10Monotone(i, j - 1);
    }
  }

  /** A rendering no longer than `k` digits is its own last `k` digits. */
  lemma ShortDigits(n: nat, k: nat)
    requires |NatToString(n)| <= k
    ensures ParseDecimal(LastN(NatToString(n), k)) == n % Pow10(k)
  {
    ParseNatToString(n);
    NatToStringLength(n);
    Pow10Monotone(|NatToString(n)|, k);
    ModUnique(n, Pow10(k), 0, n);
  }

  lemma SplitAt(s: string, i: nat)
    requires i <= |s|
    ensures s == s[..i] + s[i..]
  {
  }

  lemma AllDigitsSuffix(s: string, i: nat)
    requires AllDigits(s) && i <= |s|
    ensures AllDigits(s[i..])
  {
    forall j | 0 <= j < |s[i..]|
      ensures '0' <= s[i..][j] <= '9'
    {
      assert s[i..][j] == s[i + j];
    }
  }

  /** A digit string longer than `k` reads as its front shifted by `k`
      digits plus its last `k` digits, which read below `10^k`. */
  lemma SplitValue(s: string, k: nat)
    requires AllDigits(s) && |s| > k
    ensures ParseDecimal(s) == ParseDecimal(s[..|s| - k]) * Pow10(k) + ParseDecimal(LastN(s, k))
    ensures 0 <= ParseDecimal(LastN(s, k)) < Pow10(k)
  {
    var front, back := s[..|s| - k], s[|s| - k..];
    SplitAt(s, |s| - k);
    ParseAppend(front, back);
    ShiftIsMul(ParseDecimal(front), k);
    AllDigitsSuffix(s, |s| - k);
    ParseBound(back);
  }

  lemma LongDigits(n: nat, k: nat)
    requires |NatToString(n)| > k
    ensures ParseDecimal(LastN(NatToString(n), k)) == n % Pow10(k)
  {
    var s := NatToString(n);
    ParseNatToString(n);
    SplitValue(s, k);
    ModUnique(n, Pow10(k), ParseDecimal(s[..|s| - k]), ParseDecimal(LastN(s, k)));
  }

  /** The last `k` digits of `n` read back as `n mod 10^k`. */
  lemma LastDigits(n: nat, k: nat)
    ensures ParseDecimal(LastN(NatToString(n), k)) == n % Pow10(k)
  {
    if |NatToString(n)| <= k {
      ShortDigits(n, k);
    } else {
      LongDigits(n, k);
    }
  }
}
