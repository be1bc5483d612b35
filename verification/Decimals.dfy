/** Decimal numerals as JavaScript prints and reads them, and its string order. */
module Decimals {

  function Digit(d: int): char
    requires 0 <= d < 10
  {
    ['0', '1', '2', '3', '4', '5', '6', '7', '8', '9'][d]
  }

  function DigitValue(c: char): int {
    c as int - '0' as int
  }

  predicate IsDigit(c: char) {
    '0' <= c <= '9'
  }

  predicate AllDigits(s: string) {
    forall i :: 0 <= i < |s| ==> IsDigit(s[i])
  }

  /** `String(n)`. */
  function Decimal(n: nat): (s: string)
    ensures |s| > 0 && AllDigits(s)
  {
    if n < 10 then [Digit(n)] else Decimal(n / 10) + [Digit(n % 10)]
  }

  /** `String(n).padStart(2, "0")`. */
  function Pad2(n: nat): (s: string)
    ensures |s| > 0 && AllDigits(s)
  {
    if n < 10 then "0" + Decimal(n) else Decimal(n)
  }

  /** `Number(s)` on a string of digits. */
  function Value(s: string): int
  {
    if s == "" then 0 else 10 * Value(s[..|s| - 1]) + DigitValue(s[|s| - 1])
  }

  lemma {:induction false} DecimalValue(n: nat)
    ensures Value(Decimal(n)) == n
  {
    if n >= 10 {
      DecimalValue(n / 10);
      assert Decimal(n)[..|Decimal(n)| - 1] == Decimal(n / 10);
    } else {
      assert Decimal(n)[..0] == "";
    }
  }

  lemma PadValue(n: nat)
    ensures Value(Pad2(n)) == n
  {
    DecimalValue(n);
    if n < 10 {
      assert Pad2(n)[..1] == "0";
      assert "0"[..0] == "";
      assert Pad2(n)[1] == Digit(n);
      assert Value("0") == 0;
    }
  }

  /** Exactly `k` digits, with leading zeros. */
  function Fixed(n: nat, k: nat): (s: string)
    ensures |s| == k
  {
    if k == 0 then "" else Fixed(n / 10, k - 1) + [Digit(n % 10)]
  }

  function Pow10(k: nat): (p: nat)
    ensures p > 0
  {
    if k == 0 then 1 else 10 * Pow10(k - 1)
  }

  lemma PadIsFixed(n: nat)
    requires n < 100
    ensures Pad2(n) == Fixed(n, 2)
  {
    var t := n / 10;
    assert t % 10 == t && Fixed(t, 1) == Fixed(t / 10, 0) + [Digit(t)] == [Digit(t)];
    assert Fixed(n, 2) == [Digit(t)] + [Digit(n % 10)];
    assert n < 10 ==> Decimal(n) == [Digit(n)];
    assert n >= 10 ==> Decimal(t) == [Digit(t)];
  }

  lemma FourDigits(n: nat)
    requires 1000 <= n < 10000
    ensures Decimal(n) == Fixed(n, 4)
  {
    var a, b, c := n / 10, n / 10 / 10, n / 10 / 10 / 10;
    assert 1 <= c < 10 && 10 <= b < 100 && 100 <= a < 1000;
    assert Fixed(c, 1) == Fixed(c / 10, 0) + [Digit(c)] == [Digit(c)];
    assert Fixed(b, 2) == Decimal(b);
    assert Fixed(a, 3) == Decimal(a);
  }

  /** `a < b` on JavaScript strings: by the first differing code unit, a proper prefix first. */
  predicate Less(a: string, b: string) {
    b != "" && (a == "" || a[0] < b[0] || (a[0] == b[0] && Less(a[1..], b[1..])))
  }

  /** Comparing concatenations compares the equally long heads first. */
  lemma {:induction false} LessConcat(a: string, b: string, s: string, t: string)
    requires |a| == |b|
    ensures Less(a + s, b + t) <==> Less(a, b) || (a == b && Less(s, t))
  {
    if a == "" {
      assert a + s == s && b + t == t;
    } else {
      assert (a + s)[1..] == a[1..] + s && (b + t)[1..] == b[1..] + t;
      LessConcat(a[1..], b[1..], s, t);
      assert a == [a[0]] + a[1..] && b == [b[0]] + b[1..];
    }
  }

  /** Numerals of one length sort as strings exactly as the numbers do. */
  lemma {:induction false} FixedOrders(m: nat, n: nat, k: nat)
    requires m < Pow10(k) && n < Pow10(k)
    ensures Less(Fixed(m, k), Fixed(n, k)) <==> m < n
    ensures Fixed(m, k) == Fixed(n, k) <==> m == n
  {
    if k > 0 {
      FixedOrders(m / 10, n / 10, k - 1);
      var a, b := Fixed(m / 10, k - 1), Fixed(n / 10, k - 1);
      var x, y := [Digit(m % 10)], [Digit(n % 10)];
      LessConcat(a, b, x, y);
      assert Less(x, y) <==> m % 10 < n % 10;
      assert Fixed(m, k)[..k - 1] == a && Fixed(n, k)[..k - 1] == b;
      assert Fixed(m, k)[k - 1] == x[0] && Fixed(n, k)[k - 1] == y[0];
    }
  }
}
