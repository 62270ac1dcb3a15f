/** The two pieces of Python string behaviour the script relies on:
    `str(n)` of a non-negative integer and the slice `s[:k]`. */
module Text {

  predicate IsDigit(c: char)
  {
    '0' <= c <= '9'
  }

  function DigitChar(d: nat): (c: char)
    requires d < 10
    ensures IsDigit(c)
  {
    ('0' as int + d) as char
  }

  function DigitValue(c: char): (d: nat)
    requires IsDigit(c)
    ensures d < 10
  {
    c as int - '0' as int
  }

  /** Decimal rendering of `n` with no leading zeros, as `str(n)` and an
      f-string `{n}` produce it. */
  function Dec(n: nat): (s: string)
    ensures 1 <= |s|
    ensures forall i :: 0 <= i < |s| ==> IsDigit(s[i])
    decreases n
  {
    if n < 10 then [DigitChar(n)] else Dec(n / 10) + [DigitChar(n % 10)]
  }

  /** Reads a string of decimal digits back as a number; the partner of `Dec`. */
  function Parse(s: string): nat
    requires forall i :: 0 <= i < |s| ==> IsDigit(s[i])
    decreases |s|
  {
    if |s| == 0 then 0 else Parse(s[..|s| - 1]) * 10 + DigitValue(s[|s| - 1])
  }

  /** Parsing a rendered number gives the number back. */
  lemma {:induction false} ParseDec(n: nat)
    ensures Parse(Dec(n)) == n
    decreases n
  {
    if n >= 10 {
      var s := Dec(n);
      assert s[..|s| - 1] == Dec(n / 10);
      ParseDec(n / 10);
    }
  }

  /** Different numbers render differently. */
  lemma DecInjective(a: nat, b: nat)
    requires Dec(a) == Dec(b)
    ensures a == b
  {
    ParseDec(a);
    ParseDec(b);
  }

  /** A larger number never renders shorter. */
  lemma {:induction false} DecLengthMonotone(a: nat, b: nat)
    requires a <= b
    ensures |Dec(a)| <= |Dec(b)|
    decreases b
  {
    if b >= 10 && a >= 10 {
      DecLengthMonotone(a / 10, b / 10);
    } else if b >= 10 {
      assert |Dec(b)| == |Dec(b / 10)| + 1;
    }
  }

  /** Python's `s[:k]`: the first `k` characters when `k >= 0`, all but the
      last `-k` characters when `k < 0`, clamped to the string. */
  function Prefix(s: string, k: int): (r: string)
    ensures |r| <= |s|
    ensures r == s[..|r|]
    ensures 0 <= k ==> |r| == if k <= |s| then k else |s|
    ensures k < 0 ==> |r| == if -k <= |s| then |s| + k else 0
  {
    if 0 <= k then s[..if k <= |s| then k else |s|]
    else if -k <= |s| then s[..|s| + k]
    else []
  }
}
