/** `human_readable_size` (usb.c): a byte count as exact digits, or scaled down by a power of
    1024 or 1000 and followed by a unit letter. */
module SizeFormat {
  import opened Numeric

  /** The unit letters, from 1024^1 (or 1000^1) up to 1024^8 (or 1000^8). */
  const Suffixes: seq<char> := ['K', 'M', 'G', 'T', 'P', 'E', 'Z', 'Y']

  /** The divisor of a non-zero mode: 1024 for mode 1 and 1000 for any other. */
  function Base(mode: int): nat
  {
    if mode == 1 then 1024 else 1000
  }

  /** `n` divided by `b`, `k` times over, each time rounding down. */
  function Quot(n: nat, b: nat, k: nat): nat
    requires b > 0
  {
    if k == 0 then n else Quot(n, b, k - 1) / b
  }

  /** The unit index the dividing loop stops at when it is at index `i`: the first index from
      `i` on whose quotient is below `b`, or the last unit. */
  function ScaleFrom(n: nat, b: nat, i: nat): nat
    requires b > 0 && i < |Suffixes|
    decreases |Suffixes| - i
  {
    if Quot(n, b, i + 1) < b || i + 1 == |Suffixes| then i else ScaleFrom(n, b, i + 1)
  }

  function Scale(n: nat, b: nat): nat
    requires b > 0
  {
    ScaleFrom(n, b, 0)
  }

  /** What `human_readable_size(n, mode)` returns. */
  function FormatSize(n: nat, mode: int): string
  {
    if mode == 0 || n < Base(mode) then DecimalString(n)
    else
      var b := Base(mode);
      var k := ScaleFrom(n, b, 0);
      DecimalString(Quot(n, b, k + 1)) + [Suffixes[k]]
  }

  /** Dividing `k` times, rounding down each time, is dividing once by `b^k`: the quotient the
      source takes `floor` of after its repeated `double` divisions. */
  lemma {:induction false} QuotIsDivPow(n: nat, b: nat, k: nat)
    requires b > 0
    ensures Pow(b, k) > 0 && Quot(n, b, k) == n / Pow(b, k)
  {
    PowPositive(b, k);
    if k > 0 {
      QuotIsDivPow(n, b, k - 1);
      DivDiv(n, Pow(b, k - 1), b);
    }
  }

  lemma {:induction false} ScaleFromIsLeast(n: nat, b: nat, i: nat)
    requires b > 0 && i < |Suffixes|
    requires forall j :: 1 <= j <= i ==> Quot(n, b, j) >= b
    ensures var k := ScaleFrom(n, b, i);
      && i <= k < |Suffixes|
      && (Quot(n, b, k + 1) < b || k == |Suffixes| - 1)
      && forall j :: 1 <= j <= k ==> Quot(n, b, j) >= b
    decreases |Suffixes| - i
  {
    if !(Quot(n, b, i + 1) < b || i + 1 == |Suffixes|) {
      ScaleFromIsLeast(n, b, i + 1);
    }
  }

  /** The unit chosen is the smallest one whose quotient is below the base, or "Y" when none is. */
  lemma ScaleIsLeast(n: nat, b: nat)
    requires b > 0
    ensures var k := Scale(n, b);
      && k < |Suffixes|
      && (Quot(n, b, k + 1) < b || Suffixes[k] == 'Y')
      && forall j :: 1 <= j <= k ==> Quot(n, b, j) >= b
  {
    ScaleFromIsLeast(n, b, 0);
  }

  /** In mode 0, and for counts below the base, the text is the exact decimal count. */
  lemma ExactWhenUnscaled(n: nat, mode: int)
    requires mode == 0 || n < Base(mode)
    ensures FormatSize(n, mode) == DecimalString(n)
    ensures Atoi(FormatSize(n, mode)) == n
  {
    AtoiDecimalString(n);
  }

  /** Otherwise the text is a whole number from 1 up to the base (below it unless the unit is
      the last one) followed by the unit letter; reading its number back gives that quotient. */
  lemma ScaledShape(n: nat, mode: int)
    requires mode != 0 && n >= Base(mode)
    ensures var b := Base(mode);
      var k := Scale(n, b);
      var v := Quot(n, b, k + 1);
      && FormatSize(n, mode) == DecimalString(v) + [Suffixes[k]]
      && 1 <= v && (v < b || Suffixes[k] == 'Y')
      && Atoi(FormatSize(n, mode)) == v
  {
    var b := Base(mode);
    var k := Scale(n, b);
    var v := Quot(n, b, k + 1);
    ScaleIsLeast(n, b);
    assert Quot(n, b, k) >= b;
    DivAtLeastOne(Quot(n, b, k), b);
    ScaledNumberReadBack(v, Suffixes[k]);
  }

  lemma DivAtLeastOne(x: nat, b: nat)
    requires 0 < b <= x
    ensures x / b >= 1
  {
  }

  lemma ScaledNumberReadBack(v: nat, c: char)
    requires !IsDigit(c) && !Text.IsSpace(c)
    ensures Atoi(DecimalString(v) + [c]) == v
  {
    var s := DecimalString(v);
    Text.TrimStartNoSpace(s + [c]);
    AtoiSkipsSuffix(s, c);
    LeadingValueOfDecimal(v);
  }

  lemma AtoiSkipsSuffix(s: string, c: char)
    requires forall i :: 0 <= i < |s| ==> IsDigit(s[i])
    requires !IsDigit(c) && s != []
    ensures LeadingValue(s + [c]) == LeadingValue(s)
  {
    DigitRunAllDigits(s);
    DigitRunPrefix(s, c);
    assert (s + [c])[..|s|] == s;
    assert s[..|s|] == s;
  }

  lemma {:induction false} DigitRunPrefix(s: string, c: char)
    requires forall i :: 0 <= i < |s| ==> IsDigit(s[i])
    requires !IsDigit(c)
    ensures DigitRun(s + [c]) == |s|
  {
    if s != [] {
      assert (s + [c])[1..] == s[1..] + [c];
      DigitRunPrefix(s[1..], c);
    }
  }

  /** A 64-bit byte count never gets past "E": the scaled number is then always below the base,
      at most four digits, which `%G` prints exactly. */
  lemma SixtyFourBitSizes(n: nat, mode: int)
    requires mode != 0 && Base(mode) <= n < 0x1_0000_0000_0000_0000
    ensures var k := Scale(n, Base(mode));
      && k <= 5
      && Quot(n, Base(mode), k + 1) < Base(mode)
  {
    var b := Base(mode);
    var k := Scale(n, b);
    ScaleIsLeast(n, b);
    if k >= 6 {
      QuotientBound(n, b, 6);
      PowMono(1000, b, 7);
      Pow1000Seven();
    }
  }

  /** A quotient of at least `b` after `j` divisions needs a count of at least `b^(j+1)`. */
  lemma QuotientBound(n: nat, b: nat, j: nat)
    requires b > 0 && Quot(n, b, j) >= b
    ensures n >= Pow(b, j + 1)
  {
    QuotIsDivPow(n, b, j);
    var p := Pow(b, j);
    QuotientBoundCore(n, p, b, n / p, n % p);
  }

  lemma QuotientBoundCore(n: nat, p: nat, b: nat, q: nat, r: nat)
    requires n == p * q + r && q >= b
    ensures n >= b * p
  {
    MulLeft(p, b, q);
    MulComm(p, b);
  }

  /** Counts below the base, and any count in mode 0, print exactly. */
  lemma ExactExamples()
    ensures FormatSize(0, 1) == "0"
    ensures FormatSize(1023, 1) == "1023"
    ensures FormatSize(1024, 0) == "1024"
  {
    assert DecimalString(102) == "102";
    assert DecimalString(1023) == "1023";
    assert DecimalString(1024) == "1024";
  }

  /** Larger counts are cut down to whole units, rounding down. */
  lemma ScaledExamples()
    ensures FormatSize(1024, 1) == "1K"
    ensures FormatSize(1100, 2) == "1K"
    ensures FormatSize(1536, 1) == "1K"
    ensures FormatSize(1048576, 1) == "1M"
  {
    assert Quot(1048576, 1024, 2) == 1;
  }

  /** `human_readable_size` (usb.c): the dividing `while` loop over the unit letters. */
  method HumanReadableSize(numBytes: nat, mode: int) returns (s: string)
    ensures s == FormatSize(numBytes, mode)
  {
    if mode == 0 {
      // A buffer of one character per digit plus the terminating NUL, filled by `%lu`.
      var digits := DigitCount(numBytes);
      var text := DecimalString(numBytes);
      var buffer := new char[digits + 1](i requires 0 <= i <= digits => if i < digits then text[i] else '\0');
      return buffer[..digits];
    }
    var power := if mode == 1 then 1024 else 1000;
    if numBytes < power {
      return DecimalString(numBytes);
    }
    var i := 0;
    var size := numBytes;
    while i < |Suffixes|
      invariant 0 <= i < |Suffixes|
      invariant size == Quot(numBytes, power, i)
      invariant ScaleFrom(numBytes, power, i) == ScaleFrom(numBytes, power, 0)
      decreases |Suffixes| - i
    {
      size := size / power;
      if size < power || i + 1 == |Suffixes| {
        break;
      }
      i := i + 1;
    }
    s := DecimalString(size) + [Suffixes[i]];
  }
}
