/** Decimal rendering of integers the way JavaScript's `String(n)` does it, `padStart`,
    `slice`, and the reading of a run of decimal digits back into a number. */
module Text {

  predicate IsDigit(c: char)
  {
    '0' <= c <= '9'
  }

  predicate AllDigits(s: string)
  {
    forall i :: 0 <= i < |s| ==> IsDigit(s[i])
  }

  function DigitValue(c: char): nat
    requires IsDigit(c)
  {
    (c as int) - ('0' as int)
  }

  function DigitChar(d: nat): (c: char)
    requires d < 10
    ensures IsDigit(c) && DigitValue(c) == d
  {
    (('0' as int) + d) as char
  }

  /** `String(n)` for a non-negative integer: no leading zero unless `n` is 0. */
  function Digits(n: nat): (r: string)
    ensures |r| >= 1 && AllDigits(r)
    ensures |r| > 1 ==> r[0] != '0'
    decreases n
  {
    if n < 10 then [DigitChar(n)] else Digits(n / 10) + [DigitChar(n % 10)]
  }

  /** `String(n)` for any integer. */
  function JsString(n: int): string
  {
    if n < 0 then "-" + Digits(-n) else Digits(n)
  }

  /** `s.slice(from)` for a non-negative start: everything from index `from`, or "" if shorter. */
  function SliceFrom(s: string, from: nat): (r: string)
    ensures |r| == if from <= |s| then |s| - from else 0
  {
    if from <= |s| then s[from..] else ""
  }

  /** The number a run of decimal digits denotes (leading zeros allowed). */
  function DecimalValue(s: string): nat
    requires AllDigits(s)
  {
    if s == [] then 0 else DecimalValue(s[..|s| - 1]) * 10 + DigitValue(s[|s| - 1])
  }

  function Repeat(c: char, n: nat): (r: string)
    ensures |r| == n && forall i :: 0 <= i < n ==> r[i] == c
  {
    if n == 0 then "" else [c] + Repeat(c, n - 1)
  }

  /** `s.padStart(width, c)` with a one-character pad string: never truncates. */
  function PadStart(s: string, width: nat, c: char): (r: string)
    ensures |r| == if |s| < width then width else |s|
    ensures r[|r| - |s|..] == s
    ensures forall i :: 0 <= i < |r| - |s| ==> r[i] == c
  {
    if |s| < width then Repeat(c, width - |s|) + s else s
  }

  /** Reading `String(n)` back gives `n`. */
  lemma {:induction false} DigitsRoundTrip(n: nat)
    ensures DecimalValue(Digits(n)) == n
    decreases n
  {
    if n >= 10 {
      DigitsRoundTrip(n / 10);
      var s := Digits(n);
      assert s[..|s| - 1] == Digits(n / 10);
    }
  }

  /** `String(n)` has one character below 10, two below 100 and at least three from 100 on. */
  lemma DigitsLength(n: nat)
    ensures n < 10 <==> |Digits(n)| == 1
    ensures 10 <= n < 100 <==> |Digits(n)| == 2
    ensures 100 <= n <==> |Digits(n)| >= 3
  {
    if n >= 10 {
      DigitsLength(n / 10);
    }
  }

  lemma {:induction false} DecimalValueConcat(a: string, b: string)
    requires AllDigits(a) && AllDigits(b)
    ensures AllDigits(a + b)
    ensures DecimalValue(a) == 0 ==> DecimalValue(a + b) == DecimalValue(b)
    decreases |b|
  {
    if b != [] {
      assert (a + b)[..|a + b| - 1] == a + b[..|b| - 1];
      DecimalValueConcat(a, b[..|b| - 1]);
    } else {
      assert a + b == a;
    }
  }

  lemma {:induction false} ZerosHaveNoValue(n: nat)
    ensures AllDigits(Repeat('0', n)) && DecimalValue(Repeat('0', n)) == 0
  {
    if n > 0 {
      ZerosHaveNoValue(n - 1);
      assert Repeat('0', n)[..n - 1] == Repeat('0', n - 1) by {
        assert Repeat('0', n) == Repeat('0', n - 1) + ['0'] by {
          var r := Repeat('0', n);
          assert forall i :: 0 <= i < n ==> r[i] == (Repeat('0', n - 1) + ['0'])[i];
        }
      }
    }
  }

  /** Zero-padding keeps the value of a decimal number: reading `String(n).padStart(w, '0')`
      back gives `n`, and the padded text is at least `w` digits long. */
  lemma PaddedDigitsRoundTrip(n: nat, w: nat)
    ensures AllDigits(PadStart(Digits(n), w, '0'))
    ensures DecimalValue(PadStart(Digits(n), w, '0')) == n
    ensures |PadStart(Digits(n), w, '0')| == if |Digits(n)| < w then w else |Digits(n)|
  {
    DigitsRoundTrip(n);
    var d := Digits(n);
    if |d| < w {
      ZerosHaveNoValue(w - |d|);
      DecimalValueConcat(Repeat('0', w - |d|), d);
    }
  }
}
