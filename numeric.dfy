/** Decimal numerals as the C library writes and reads them: `%lu` and `%d`, `atoi`/`atol`,
    and the digit count `num_digits` (usb.c) gets from `log10`. */
module Numeric {
  import Text

  function Pow(b: nat, e: nat): nat
  {
    if e == 0 then 1 else b * Pow(b, e - 1)
  }

  predicate IsDigit(c: char)
  {
    '0' <= c <= '9'
  }

  function DigitChar(d: nat): (c: char)
    requires d < 10
    ensures IsDigit(c)
  {
    ('0' as int + d) as char
  }

  function DigitValue(c: char): (d: nat)
    requires IsDigit(c)
    ensures d < 10 && DigitChar(d) == c
  {
    c as int - '0' as int
  }

  /** The characters `%lu` prints for `n`: one or more digits, with no leading zero. */
  function DecimalString(n: nat): (s: string)
    ensures |s| >= 1
    ensures forall i :: 0 <= i < |s| ==> IsDigit(s[i])
    ensures s[0] == '0' ==> n == 0
  {
    if n < 10 then [DigitChar(n)] else DecimalString(n / 10) + [DigitChar(n % 10)]
  }

  /** The characters `%d` prints for `i`. */
  function IntString(i: int): (s: string)
    ensures |s| >= 1
    ensures s[0] == '-' <==> i < 0
  {
    if i < 0 then "-" + DecimalString(-i) else DecimalString(i)
  }

  /** Value of a string of digits, most significant first. */
  function DigitsValue(s: string): nat
    requires forall i :: 0 <= i < |s| ==> IsDigit(s[i])
  {
    if s == [] then 0 else DigitsValue(s[..|s| - 1]) * 10 + DigitValue(s[|s| - 1])
  }

  /** Length of the run of digits that starts `s`. */
  function DigitRun(s: string): (k: nat)
    ensures k <= |s|
    ensures forall i :: 0 <= i < k ==> IsDigit(s[i])
    ensures k < |s| ==> !IsDigit(s[k])
  {
    if s != [] && IsDigit(s[0]) then 1 + DigitRun(s[1..]) else 0
  }

  /** Value of the run of digits that starts `s` (0 when there is none). */
  function LeadingValue(s: string): nat
  {
    DigitsValue(s[..DigitRun(s)])
  }

  /** `atoi` and `atol`: skip white space, take an optional sign, then the longest run of
      digits; anything after it is ignored. */
  function Atoi(s: string): int
  {
    var t := Text.TrimStart(s);
    if t != [] && t[0] == '-' then -(LeadingValue(t[1..]) as int)
    else if t != [] && t[0] == '+' then LeadingValue(t[1..])
    else LeadingValue(t)
  }

  /** `num_digits` (usb.c): floor(log10(n)) + 1, the d with 10^(d-1) <= n < 10^d.
      `log10(0)` is not finite, so the source gives no digit count for 0. */
  function NumDigits(n: nat): (d: nat)
    requires n > 0
    ensures d >= 1
    ensures Pow(10, d - 1) <= n < Pow(10, d)
  {
    if n < 10 then 1
    else
      var d := NumDigits(n / 10);
      assert n / 10 < Pow(10, d) ==> n < 10 * Pow(10, d);
      assert Pow(10, d - 1) <= n / 10 ==> 10 * Pow(10, d - 1) <= n;
      1 + d
  }

  lemma {:induction false} DigitRunAllDigits(s: string)
    requires forall i :: 0 <= i < |s| ==> IsDigit(s[i])
    ensures DigitRun(s) == |s|
  {
    if s != [] {
      DigitRunAllDigits(s[1..]);
    }
  }

  lemma {:induction false} DigitsValueOfDecimal(n: nat)
    ensures DigitsValue(DecimalString(n)) == n
  {
    var s := DecimalString(n);
    if n >= 10 {
      assert s[..|s| - 1] == DecimalString(n / 10);
      DigitsValueOfDecimal(n / 10);
    }
  }

  lemma LeadingValueOfDecimal(n: nat)
    ensures LeadingValue(DecimalString(n)) == n
  {
    var s := DecimalString(n);
    DigitRunAllDigits(s);
    assert s[..|s|] == s;
    DigitsValueOfDecimal(n);
  }

  /** `%lu` and `atol` are inverse: reading back what `%lu` wrote gives the number. */
  lemma AtoiDecimalString(n: nat)
    ensures Atoi(DecimalString(n)) == n
  {
    var s := DecimalString(n);
    Text.TrimStartNoSpace(s);
    LeadingValueOfDecimal(n);
  }

  /** `%d` and `atoi` are inverse. */
  lemma AtoiIntString(i: int)
    ensures Atoi(IntString(i)) == i
  {
    var s := IntString(i);
    Text.TrimStartNoSpace(s);
    if i < 0 {
      assert s[1..] == DecimalString(-i);
      LeadingValueOfDecimal(-i);
    } else {
      LeadingValueOfDecimal(i);
    }
  }

  /** `num_digits` counts exactly the characters `%lu` prints. */
  lemma {:induction false} NumDigitsIsLength(n: nat)
    requires n > 0
    ensures NumDigits(n) == |DecimalString(n)|
  {
    if n >= 10 {
      NumDigitsIsLength(n / 10);
    }
  }

  /** What `num_digits(num_bytes)` (usb.c) evaluates to as written, for a `size_t` argument:
      the value is converted to a signed 64-bit `long` (wrapping, as GCC does), `labs` takes its
      magnitude, and `floor(log10(·)) + 1` of that is the result, here over exact integers
      rather than `double`. There is no count (`NotFinite`) at zero, where `log10` is negative
      infinity, nor at 2^63, whose `long` is the most negative one and has no `labs`. */
  datatype DigitCountResult = Finite(count: nat) | NotFinite

  const LongModulus: nat := 0x1_0000_0000_0000_0000

  function NumDigitsAsWritten(n: nat): (r: DigitCountResult)
    requires n < LongModulus
    ensures r.NotFinite? <==> n == 0 || n == LongModulus / 2
    ensures 0 < n < LongModulus / 2 ==> r == Finite(|DecimalString(n)|)
  {
    if n == 0 || n == LongModulus / 2 then NotFinite
    else
      var magnitude := if n < LongModulus / 2 then n else LongModulus - n;
      NumDigitsIsLength(magnitude);
      Finite(NumDigits(magnitude))
  }

  /** At zero the source has no digit count, although `%lu` prints one digit. */
  lemma ZeroHasNoDigitCount()
    ensures NumDigitsAsWritten(0) == NotFinite
    ensures |DecimalString(0)| == 1
  {
  }

  /** A size of 2^64 - 512 (an `atol` of -1 sectors times 512) wraps to the `long` -512, so the
      source counts three digits for a number that `%lu` prints with twenty. */
  lemma WrappedSizeUndercounted()
    ensures NumDigitsAsWritten(LongModulus - 512) == Finite(3)
    ensures |DecimalString(LongModulus - 512)| == 20
  {
    assert NumDigits(512) == 3;
    NumDigitsIsLength(LongModulus - 512);
    PowTenTwenty();
    NumDigitsUnique(LongModulus - 512, 20);
  }

  lemma PowTenTwenty()
    ensures Pow(10, 19) == 10_000_000_000_000_000_000
    ensures Pow(10, 20) == 100_000_000_000_000_000_000
  {
    assert Pow(10, 3) == 1_000;
    assert Pow(10, 6) == 1_000_000;
    assert Pow(10, 9) == 1_000_000_000;
    assert Pow(10, 12) == 1_000_000_000_000;
    assert Pow(10, 15) == 1_000_000_000_000_000;
    assert Pow(10, 18) == 1_000_000_000_000_000_000;
  }

  /** The digit count is the only `d` with `10^(d-1) <= n < 10^d`. */
  lemma NumDigitsUnique(n: nat, d: nat)
    requires d >= 1 && Pow(10, d - 1) <= n < Pow(10, d)
    ensures NumDigits(n) == d
  {
    var e := NumDigits(n);
    if e < d {
      PowGrows(10, e, d - 1);
    } else if e > d {
      PowGrows(10, d, e - 1);
    }
  }

  lemma {:induction false} PowGrows(b: nat, i: nat, j: nat)
    requires b >= 1 && i <= j
    ensures Pow(b, i) <= Pow(b, j)
    decreases j
  {
    if i < j {
      PowGrows(b, i, j - 1);
      PowPositive(b, j - 1);
    }
  }

  /** The number of digits `%lu` prints for `n`, zero included: the count the exact-mode
      buffer of `human_readable_size` is sized by. */
  function DigitCount(n: nat): (d: nat)
    ensures d == |DecimalString(n)|
    ensures d >= 1
  {
    if n == 0 then 1
    else
      NumDigitsIsLength(n);
      NumDigits(n)
  }


  // Arithmetic facts the size formatter needs.

  lemma Distribute(a: int, x: int, y: int)
    ensures a * (x + y) == a * x + a * y
  {
  }
  lemma MulAssoc(a: int, b: int, c: int)
    ensures a * (b * c) == (a * b) * c
  {
  }
  lemma MulComm(a: int, b: int)
    ensures a * b == b * a
  {
  }
  lemma MulLeft(a: nat, x: nat, y: nat)
    requires x <= y
    ensures a * x <= a * y
  {
    Distribute(a, x, y - x);
  }
  lemma RemainderForm(p: nat, b: nat, q: nat, r2: nat, r: nat)
    requires p > 0 && b > 0 && r2 < b && r < p
    ensures p * (b * q + r2) + r == (p * b) * q + (p * r2 + r)
    ensures p * r2 + r < p * b
  {
    Distribute(p, b * q, r2);
    MulAssoc(p, b, q);
    MulLeft(p, r2, b - 1);
    Distribute(p, b - 1, 1);
  }
  lemma DivUnique(n: nat, d: nat, q: nat, r: nat)
    requires d > 0 && r < d && n == d * q + r
    ensures n / d == q
  {
    var q' := n / d;
    if q' < q {
      MulLeft(d, q' + 1, q);
      Distribute(d, q', 1);
    } else if q' > q {
      MulLeft(d, q + 1, q');
      Distribute(d, q, 1);
    }
  }
  lemma PowPositive(b: nat, e: nat)
    requires b > 0
    ensures Pow(b, e) > 0
  {
    if e > 0 { PowPositive(b, e - 1); MulLeft(b, 1, Pow(b, e - 1)); }
  }
  lemma PowMono(a: nat, b: nat, e: nat)
    requires a <= b
    ensures Pow(a, e) <= Pow(b, e)
  {
    if e > 0 {
      PowMono(a, b, e - 1);
      MulLeft(a, Pow(a, e - 1), Pow(b, e - 1));
      MulComm(a, Pow(b, e - 1));
      MulComm(b, Pow(b, e - 1));
      MulLeft(Pow(b, e - 1), a, b);
    }
  }
  lemma Pow1000Seven()
    ensures Pow(1000, 7) == 1_000_000_000_000_000_000_000
  {
    assert Pow(1000, 2) == 1_000_000;
    assert Pow(1000, 4) == 1_000_000_000_000;
    assert Pow(1000, 6) == 1_000_000_000_000_000_000;
  }
  lemma DivDiv(n: nat, p: nat, b: nat)
    requires p > 0 && b > 0
    ensures n / p / b == n / (b * p)
  {
    DivDivCore(n, p, b, n / p, n % p, n / p / b, n / p % b);
  }
  lemma DivDivCore(n: nat, p: nat, b: nat, q: nat, r: nat, q2: nat, r2: nat)
    requires p > 0 && b > 0 && r < p && r2 < b
    requires n == p * q + r && q == b * q2 + r2
    ensures n / (b * p) == q2
  {
    assert n == p * (b * q2 + r2) + r;
    RemainderForm(p, b, q2, r2, r);
    MulComm(p, b);
    DivUnique(n, b * p, q2, p * r2 + r);
  }
}
