/** The `HH:MM` text of the two time inputs. */
module TimeText {
  import opened Decimals
  import opened Wrappers

  datatype Time = Time(hours: int, minutes: int) {
    predicate Valid() {
      0 <= hours < 24 && 0 <= minutes < 60
    }
  }

  /** The characters `trim` removes: WhiteSpace and LineTerminator of ECMA-262, section 12. */
  predicate IsSpace(c: char) {
    || c in "\t\n\r \U{000B}\U{000C}\U{00A0}\U{1680}\U{2028}\U{2029}\U{202F}\U{205F}\U{3000}\U{FEFF}"
    || '\U{2000}' <= c <= '\U{200A}'
  }

  function Trim(s: string): string {
    if s != "" && IsSpace(s[0]) then Trim(s[1..])
    else if s != "" && IsSpace(s[|s| - 1]) then Trim(s[..|s| - 1])
    else s
  }

  predicate AllSpace(s: string) {
    forall i :: 0 <= i < |s| ==> IsSpace(s[i])
  }

  /** Trimming takes spaces off both ends, and all of them. */
  lemma TrimIs(s: string) returns (a: string, b: string)
    ensures s == a + Trim(s) + b && AllSpace(a) && AllSpace(b)
    ensures Trim(s) != "" ==> !IsSpace(Trim(s)[0]) && !IsSpace(Trim(s)[|Trim(s)| - 1])
  {
    hide Trim, IsSpace, AllSpace;
    a, b := TrimTakes(s);
    TrimEnds(s);
  }

  lemma {:induction false} TrimEnds(s: string)
    ensures Trim(s) != "" ==> !IsSpace(Trim(s)[0]) && !IsSpace(Trim(s)[|Trim(s)| - 1])
  {
    hide IsSpace;
    if s != "" && IsSpace(s[0]) {
      TrimEnds(s[1..]);
    } else if s != "" && IsSpace(s[|s| - 1]) {
      TrimEnds(s[..|s| - 1]);
    }
  }

  lemma {:induction false} TrimTakes(s: string) returns (a: string, b: string)
    ensures s == a + Trim(s) + b && AllSpace(a) && AllSpace(b)
  {
    hide IsSpace;
    if s != "" && IsSpace(s[0]) {
      a, b := TrimTakes(s[1..]);
      assert Trim(s) == Trim(s[1..]);
      hide Trim;
      assert s == [s[0]] + (a + Trim(s) + b);
      a := [s[0]] + a;
    } else if s != "" && IsSpace(s[|s| - 1]) {
      a, b := TrimTakes(s[..|s| - 1]);
      assert Trim(s) == Trim(s[..|s| - 1]);
      hide Trim;
      assert s == (a + Trim(s) + b) + [s[|s| - 1]];
      b := b + [s[|s| - 1]];
    } else {
      a, b := "", "";
    }
  }

  /** Of ASCII the blank and the control characters 9 to 13 are taken off. */
  lemma SpacesOfAscii(c: char)
    requires c as int < 128
    ensures IsSpace(c) <==> c == ' ' || 9 <= c as int <= 13
  {
  }

  function ToTimeStr(t: Time): string
    requires t.Valid()
  {
    Pad2(t.hours) + ":" + Pad2(t.minutes)
  }

  /** The pattern `^([0-2]?\d):([0-5]\d)$` on the trimmed text, then the range check on the hours. */
  function ParseTimeStr(v: string): Option<Time> {
    ParseClock(Trim(v))
  }

  function ParseClock(s: string): Option<Time> {
    if |s| == 4 && IsDigit(s[0]) && s[1] == ':' && '0' <= s[2] <= '5' && IsDigit(s[3]) then
      Some(Time(DigitValue(s[0]), 10 * DigitValue(s[2]) + DigitValue(s[3])))
    else if |s| == 5 && '0' <= s[0] <= '2' && IsDigit(s[1]) && s[2] == ':' && '0' <= s[3] <= '5' && IsDigit(s[4]) then
      var hours := 10 * DigitValue(s[0]) + DigitValue(s[1]);
      if hours > 23 then None else Some(Time(hours, 10 * DigitValue(s[3]) + DigitValue(s[4])))
    else None
  }

  /** Exactly the printed times are read, with the leading zero of the hour optional. */
  lemma ReadsExactlyTimes(v: string, t: Time)
    ensures ParseTimeStr(v) == Some(t) <==>
              && t.Valid()
              && (Trim(v) == ToTimeStr(t) || (t.hours < 10 && Trim(v) == Decimal(t.hours) + ":" + Pad2(t.minutes)))
  {
    hide Trim, ParseClock;
    var s := Trim(v);
    if ParseClock(s) == Some(t) {
      ReadImpliesPrinted(s, t);
    } else if t.Valid() {
      PrintedIsRead(t);
    }
  }

  lemma ReadImpliesPrinted(s: string, t: Time)
    requires ParseClock(s) == Some(t)
    ensures t.Valid()
    ensures s == ToTimeStr(t) || (t.hours < 10 && s == Decimal(t.hours) + ":" + Pad2(t.minutes))
  {
    hide Pad2, Decimal, Digit;
    var k := |s| - 2;
    DigitInverse(s[0]);
    DigitInverse(s[k]);
    DigitInverse(s[k + 1]);
    if |s| == 4 {
      TensAndUnits(s[2], s[3]);
      TwoDigits(t.hours);
      assert s == [s[0]] + ":" + [s[2], s[3]];
    } else {
      DigitInverse(s[1]);
      TensAndUnits(s[0], s[1]);
      TensAndUnits(s[3], s[4]);
      assert s == [s[0], s[1]] + ":" + [s[3], s[4]];
    }
  }

  lemma TensAndUnits(a: char, b: char)
    requires IsDigit(a) && IsDigit(b)
    ensures var n := 10 * DigitValue(a) + DigitValue(b); 0 <= n < 100 && Pad2(n) == [a, b]
  {
    hide Pad2, Decimal;
    DigitInverse(a);
    DigitInverse(b);
    var n := 10 * DigitValue(a) + DigitValue(b);
    TwoDigits(n);
    assert n / 10 == DigitValue(a) && n % 10 == DigitValue(b);
  }

  lemma PrintedIsRead(t: Time)
    requires t.Valid()
    ensures ParseClock(ToTimeStr(t)) == Some(t)
    ensures t.hours < 10 ==> ParseClock(Decimal(t.hours) + ":" + Pad2(t.minutes)) == Some(t)
  {
    hide Pad2, Decimal, Digit, DigitValue, IsDigit;
    TwoDigits(t.minutes);
    TwoDigits(t.hours);
    var a, b, c, d := Digit(t.hours / 10), Digit(t.hours % 10), Digit(t.minutes / 10), Digit(t.minutes % 10);
    DigitFacts(t.hours / 10);
    DigitFacts(t.hours % 10);
    DigitFacts(t.minutes / 10);
    DigitFacts(t.minutes % 10);
    assert ToTimeStr(t) == [a, b, ':', c, d];
    if t.hours < 10 {
      assert Decimal(t.hours) + ":" + Pad2(t.minutes) == [b, ':', c, d];
    }
  }

  lemma DigitFacts(d: int)
    requires 0 <= d < 10
    ensures IsDigit(Digit(d)) && DigitValue(Digit(d)) == d
    ensures d < 6 <==> Digit(d) <= '5'
    ensures d < 3 <==> Digit(d) <= '2'
    ensures '0' <= Digit(d)
  {
  }

  lemma DigitInverse(c: char)
    requires IsDigit(c)
    ensures 0 <= DigitValue(c) < 10 && Digit(DigitValue(c)) == c
  {
  }

  lemma TwoDigits(n: int)
    requires 0 <= n < 100
    ensures Pad2(n) == [Digit(n / 10), Digit(n % 10)]
    ensures n < 10 ==> Decimal(n) == [Digit(n)]
  {
    hide Digit, Decimal, Pad2, AllDigits, IsDigit;
    if n < 10 {
      assert n / 10 == 0 && n % 10 == n;
      OneDigit(n);
      PadOne(n);
    } else {
      PadTwo(n);
    }
  }

  lemma PadOne(n: nat)
    requires n < 10
    ensures Pad2(n) == [Digit(0), Digit(n)]
  {
    hide Decimal;
    OneDigit(n);
    assert "0" == [Digit(0)];
    hide Digit;
  }

  lemma PadTwo(n: nat)
    requires 10 <= n < 100
    ensures Pad2(n) == [Digit(n / 10), Digit(n % 10)]
  {
    hide Digit;
    var t := n / 10;
    OneDigit(t);
    assert Pad2(n) == Decimal(t) + [Digit(n % 10)];
    hide Decimal, Pad2;
  }

  lemma OneDigit(n: int)
    requires 0 <= n < 10
    ensures Decimal(n) == [Digit(n)]
  {
  }

  lemma TimeRoundTrip(t: Time)
    requires t.Valid()
    ensures ParseTimeStr(ToTimeStr(t)) == Some(t)
  {
    var s := ToTimeStr(t);
    assert !IsSpace(s[0]) && !IsSpace(s[|s| - 1]) by {
      hide IsSpace;
      TwoDigits(t.hours);
      TwoDigits(t.minutes);
      DigitsAreInk(s[0]);
      DigitsAreInk(s[|s| - 1]);
    }
    hide ParseClock, IsSpace, ToTimeStr;
    assert Trim(s) == s;
    PrintedIsRead(t);
  }

  lemma DigitsAreInk(c: char)
    requires IsDigit(c)
    ensures !IsSpace(c)
  {
  }

  lemma ReadTimesAreValid(v: string)
    ensures ParseTimeStr(v).Some? ==> ParseTimeStr(v).value.Valid()
  {
    if ParseTimeStr(v).Some? {
      ReadsExactlyTimes(v, ParseTimeStr(v).value);
    }
  }
}
