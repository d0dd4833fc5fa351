/**
 * Decimal text: Python's `str(n)` of a natural number, the zero-filled
 * format `f"{n:0Nd}"`, and the value of a run of ASCII digits.
 */
module TextFormat {

  predicate IsDigit(c: char) {
    '0' <= c <= '9'
  }

  predicate AllDigits(s: string) {
    forall i :: 0 <= i < |s| ==> IsDigit(s[i])
  }

  function DigitChar(n: nat): (c: char)
    requires n < 10
    ensures IsDigit(c)
  {
    "0123456789"[n]
  }

  function DigitValue(c: char): (n: nat)
    requires IsDigit(c)
    ensures n < 10
  {
    c as int - '0' as int
  }

  /** The value of a run of digits, read from the left: leading zeros count for nothing. */
  function DecimalValue(s: string): nat
    requires AllDigits(s)
  {
    if s == [] then 0 else DecimalValue(s[..|s| - 1]) * 10 + DigitValue(s[|s| - 1])
  }

  /** `str(n)` for `n >= 0`: the shortest digit run with value `n`. */
  function Decimal(n: nat): (s: string)
    ensures 1 <= |s| && AllDigits(s)
    ensures DecimalValue(s) == n
    ensures |s| > 1 ==> s[0] != '0'
  {
    if n < 10 then [DigitChar(n)]
    else
      var s := Decimal(n / 10) + [DigitChar(n % 10)];
      assert s[..|s| - 1] == Decimal(n / 10);
      s
  }

  function Zeros(k: nat): (s: string)
    ensures |s| == k && AllDigits(s)
  {
    seq(k, _ => '0')
  }

  /** `f"{n:0{width}d}"` for `n >= 0`: `str(n)` filled with zeros on the left up to `width`. */
  function ZeroFill(n: nat, width: nat): (s: string)
    ensures AllDigits(s)
    ensures |s| == if |Decimal(n)| < width then width else |Decimal(n)|
  {
    var d := Decimal(n);
    if |d| < width then Zeros(width - |d|) + d else d
  }

  lemma {:induction false} ZerosValue(k: nat)
    ensures DecimalValue(Zeros(k)) == 0
  {
    if k > 0 {
      assert Zeros(k)[..k - 1] == Zeros(k - 1);
      ZerosValue(k - 1);
    }
  }

  function Pow10(k: nat): (p: nat)
    ensures p >= 1
  {
    if k == 0 then 1 else 10 * Pow10(k - 1)
  }

  /** Reading two digit runs one after the other: the first is shifted by the length of the second. */
  lemma {:induction false} ConcatValue(a: string, b: string)
    requires AllDigits(a) && AllDigits(b)
    ensures AllDigits(a + b)
    ensures DecimalValue(a + b) == DecimalValue(a) * Pow10(|b|) + DecimalValue(b)
    decreases |b|
  {
    if b != [] {
      var b' := b[..|b| - 1];
      assert (a + b)[..|a + b| - 1] == a + b';
      ConcatValue(a, b');
      ShiftStep(DecimalValue(a), Pow10(|b'|), DecimalValue(b'), DigitValue(b[|b| - 1]));
    } else {
      assert a + b == a;
    }
  }

  lemma ShiftStep(x: int, p: int, y: int, c: int)
    ensures (x * p + y) * 10 + c == x * (10 * p) + (y * 10 + c)
  {
  }

  /** The zero fill changes the text but not the value it reads as. */
  lemma ZeroFillValue(n: nat, width: nat)
    ensures DecimalValue(ZeroFill(n, width)) == n
  {
    var d := Decimal(n);
    if |d| < width {
      ConcatValue(Zeros(width - |d|), d);
      ZerosValue(width - |d|);
    }
  }

  /**
   * `f"{n:0{width}d}"` and `str(n).zfill(width)` for any integer: a minus
   * sign first, then the digits filled with zeros so that the whole text
   * has at least `width` characters.
   */
  function FormatInt(n: int, width: nat): string {
    if n < 0 then "-" + ZeroFill(-n, if width > 0 then width - 1 else 0) else ZeroFill(n, width)
  }

  /** The formatted number reads back as the number: its sign, then digits with the value of `|n|`. */
  lemma FormatIntValue(n: int, width: nat)
    ensures var s := FormatInt(n, width);
      if n < 0 then |s| >= 2 && s[0] == '-' && AllDigits(s[1..]) && DecimalValue(s[1..]) == -n
      else AllDigits(s) && DecimalValue(s) == n
  {
    if n < 0 {
      var w := if width > 0 then width - 1 else 0;
      ZeroFillValue(-n, w);
      assert FormatInt(n, width)[1..] == ZeroFill(-n, w);
    } else {
      ZeroFillValue(n, width);
    }
  }

  /** `str(n)` of a number below `10^k` has at most `k` digits (and always at least one). */
  lemma {:induction false} DecimalLength(n: nat, k: nat)
    requires n < Pow10(k)
    ensures |Decimal(n)| <= if k == 0 then 1 else k
  {
    if n >= 10 {
      DecimalLength(n / 10, k - 1);
    }
  }
}
