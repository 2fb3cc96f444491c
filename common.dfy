/** Shared vocabulary of the ingestion core: result wrappers, the canonical
    message record, decimal digits and Python's truncating division. */
module Common {

  datatype Option<+T> = None | Some(value: T)

  datatype Result<+T, +E> = Ok(value: T) | Err(error: E)

  /** The two source platforms; their Python spellings are the labels below. */
  datatype Platform = Discord | Instagram

  function PlatformName(p: Platform): string
  {
    match p
    case Discord => "discord"
    case Instagram => "instagram"
  }

  /** The canonical tuple (platform, author, epoch seconds, content). */
  datatype Message = Message(platform: Platform, author: string, timestamp: int, content: string)

  predicate IsDigit(c: char)
  {
    '0' <= c <= '9'
  }

  function DigitValue(c: char): (d: nat)
    requires IsDigit(c)
    ensures d < 10
  {
    (c as int) - ('0' as int)
  }

  function DigitChar(d: nat): (c: char)
    requires d < 10
    ensures IsDigit(c) && DigitValue(c) == d
  {
    (('0' as int) + d) as char
  }

  predicate AllDigits(s: string)
  {
    forall i :: 0 <= i < |s| ==> IsDigit(s[i])
  }

  function Pow10(n: nat): (p: nat)
    ensures p >= 1
  {
    if n == 0 then 1 else 10 * Pow10(n - 1)
  }

  /** The value of a decimal numeral, most significant digit first, as Python's int(). */
  function DigitsValue(s: string): (v: nat)
    requires AllDigits(s)
    ensures v < Pow10(|s|)
  {
    if s == [] then 0 else DigitsValue(s[..|s| - 1]) * 10 + DigitValue(s[|s| - 1])
  }

  /** A two-digit numeral, tens first. */
  lemma TwoDigitsValue(s: string)
    requires |s| == 2 && AllDigits(s)
    ensures DigitsValue(s) == DigitValue(s[0]) * 10 + DigitValue(s[1])
  {
    assert s[..1][..0] == [];
  }

  /** Padding a numeral of k digits with zeros to n digits keeps it below 10^n. */
  lemma PaddedBelow(v: nat, k: nat, n: nat)
    requires k <= n && v < Pow10(k)
    ensures v * Pow10(n - k) < Pow10(n)
    decreases n
  {
    if n > k {
      PaddedBelow(v, k, n - 1);
      assert Pow10(n - k) == 10 * Pow10(n - 1 - k);
      assert v * Pow10(n - k) == 10 * (v * Pow10(n - 1 - k));
    }
  }

  /** Integer division rounding toward zero: Python's int(a / b) taken on the exact quotient. */
  function TruncDiv(a: int, b: nat): (q: int)
    requires b > 0
    ensures a >= 0 ==> 0 <= q * b <= a < q * b + b
    ensures a < 0 ==> q * b - b < a <= q * b <= 0
  {
    if a >= 0 then
      var q := a / b;
      EuclidBounds(a, b);
      q
    else
      var q := (-a) / b;
      EuclidBounds(-a, b);
      assert (-q) * b == -(q * b);
      -q
  }

  /** Euclidean division of a non-negative numerator, in the multiplicative form used above. */
  lemma EuclidBounds(a: nat, b: nat)
    requires b > 0
    ensures 0 <= (a / b) * b <= a < (a / b) * b + b
  {
    var q, r := a / b, a % b;
    assert a == q * b + r && 0 <= r < b;
    assert q >= 0;
    assert q * b >= 0;
  }
}
