/** The `year-mm-dd` keys by which the calendar names, compares and re-reads its days. */
module DateKeys {
  import opened Decimals
  import opened Gregorian
  import opened Wrappers

  /** `String(y)`. */
  function YearText(y: int): string {
    if y < 0 then "-" + Decimal(-y) else Decimal(y)
  }

  /** `${c.year}-${pad(c.month)}-${pad(c.day)}`. */
  function CellKey(c: Civil): string
    requires c.month >= 0 && c.day >= 0
  {
    YearText(c.year) + "-" + Pad2(c.month) + "-" + Pad2(c.day)
  }

  /** `s.split("-")`. */
  function Split(s: string): (parts: seq<string>)
    ensures |parts| > 0
  {
    if s == "" then [""]
    else
      var rest := Split(s[1..]);
      if s[0] == '-' then [""] + rest else [[s[0]] + rest[0]] + rest[1..]
  }

  /** `s.split("-").map(Number)` destructured into three numbers, 0 for an empty part; any other text is no date. */
  function ParseKey(s: string): Option<Civil> {
    var p := Split(s);
    if |p| >= 3 && AllDigits(p[0]) && AllDigits(p[1]) && AllDigits(p[2])
    then Some(Civil(Value(p[0]), Value(p[1]), Value(p[2])))
    else None
  }

  lemma {:induction false} SplitDigits(a: string, s: string)
    requires AllDigits(a)
    ensures Split(a + "-" + s) == [a] + Split(s)
    ensures Split(a) == [a]
  {
    if a == "" {
      assert a + "-" + s == "-" + s;
      assert ("-" + s)[1..] == s;
    } else {
      assert (a + "-" + s)[1..] == a[1..] + "-" + s;
      SplitDigits(a[1..], s);
      assert [a[0]] + a[1..] == a;
    }
  }

  /** The parts of a key; the sign of a year before 0 is read as a dash and leaves an empty part. */
  lemma PartsOfKey(c: Civil)
    requires c.month >= 0 && c.day >= 0
    ensures c.year >= 0 ==> Split(CellKey(c)) == [Decimal(c.year), Pad2(c.month), Pad2(c.day)]
    ensures c.year < 0 ==> Split(CellKey(c)) == ["", Decimal(-c.year), Pad2(c.month), Pad2(c.day)]
  {
    hide Decimal, Pad2, Split;
    var y := Decimal(if c.year < 0 then -c.year else c.year);
    ThreeParts(y, Pad2(c.month), Pad2(c.day));
    var s := y + "-" + Pad2(c.month) + "-" + Pad2(c.day);
    if c.year < 0 {
      assert CellKey(c) == "" + "-" + s;
      hide CellKey;
      SplitDigits("", s);
    } else {
      assert CellKey(c) == s;
    }
  }

  lemma ThreeParts(y: string, m: string, d: string)
    requires AllDigits(y) && AllDigits(m) && AllDigits(d)
    ensures Split(y + "-" + m + "-" + d) == [y, m, d]
  {
    hide Split;
    assert y + "-" + m + "-" + d == y + "-" + (m + "-" + d);
    SplitDigits(y, m + "-" + d);
    SplitDigits(m, d);
    SplitDigits(d, "");
  }

  /** Reading a key gives back the date it was printed from; for a year before 0, something else. */
  lemma KeyRoundTrip(c: Civil)
    requires c.month >= 0 && c.day >= 0
    ensures ParseKey(CellKey(c)) == Some(if c.year >= 0 then c else Civil(0, -c.year, c.month))
  {
    hide CellKey, Split, Decimal, Pad2, Value;
    PartsOfKey(c);
    DecimalValue(if c.year < 0 then -c.year else c.year);
    PadValue(c.month);
    PadValue(c.day);
    NoDigits();
  }

  lemma NoDigits()
    ensures Value("") == 0
  {
  }

  /** Different dates have different keys, whatever their years. */
  lemma KeysIdentify(a: Civil, b: Civil)
    requires a.month >= 0 && a.day >= 0 && b.month >= 0 && b.day >= 0
    ensures CellKey(a) == CellKey(b) <==> a == b
  {
    hide CellKey, Split, Decimal, Pad2, Value;
    if CellKey(a) == CellKey(b) {
      PartsOfKey(a);
      PartsOfKey(b);
      assert |Split(CellKey(a))| == |Split(CellKey(b))|;
      DecimalValue(if a.year < 0 then -a.year else a.year);
      DecimalValue(if b.year < 0 then -b.year else b.year);
      PadValue(a.month);
      PadValue(b.month);
      PadValue(a.day);
      PadValue(b.day);
    }
  }

  ghost predicate FourDigitYear(c: Civil) {
    c.Valid() && 1000 <= c.year <= 9999
  }

  /** Keys of four-digit years sort as strings exactly in calendar order. */
  lemma KeyOrder(a: Civil, b: Civil)
    requires FourDigitYear(a) && FourDigitYear(b)
    ensures Less(CellKey(a), CellKey(b)) <==> DayNumber(a) < DayNumber(b)
    ensures CellKey(a) == CellKey(b) <==> a == b
  {
    hide DayNumber, Less, DaysInMonth, Fixed, Decimal, Pad2, ParseKey;
    Tens();
    FourDigits(a.year);
    FourDigits(b.year);
    PadIsFixed(a.month);
    PadIsFixed(b.month);
    PadIsFixed(a.day);
    PadIsFixed(b.day);
    FixedOrders(a.year, b.year, 4);
    FixedOrders(a.month, b.month, 2);
    FixedOrders(a.day, b.day, 2);
    DashOrder(Fixed(a.month, 2), Fixed(b.month, 2), Fixed(a.day, 2), Fixed(b.day, 2));
    var s, t := Fixed(a.month, 2) + "-" + Fixed(a.day, 2), Fixed(b.month, 2) + "-" + Fixed(b.day, 2);
    DashOrder(Fixed(a.year, 4), Fixed(b.year, 4), s, t);
    assert CellKey(a) == Fixed(a.year, 4) + "-" + s && CellKey(b) == Fixed(b.year, 4) + "-" + t;
    DayNumberOrders(a, b);
    KeysIdentify(a, b);
  }

  lemma DashOrder(a: string, b: string, s: string, t: string)
    requires |a| == |b|
    ensures Less(a + "-" + s, b + "-" + t) <==> Less(a, b) || (a == b && Less(s, t))
  {
    assert a + "-" + s == a + ("-" + s) && b + "-" + t == b + ("-" + t);
    LessConcat(a, b, "-" + s, "-" + t);
    LessConcat("-", "-", s, t);
    assert !Less("-", "-");
  }

  lemma Tens()
    ensures Pow10(2) == 100 && Pow10(4) == 10000
  {
    assert Pow10(3) == 10 * Pow10(2);
  }

  /** `minKey !== null && key < minKey`: whether a cell of the grid is disabled. */
  predicate Disabled(c: Civil, minDate: Option<Civil>)
    requires c.month >= 0 && c.day >= 0 && (minDate.Some? ==> minDate.value.month >= 0 && minDate.value.day >= 0)
  {
    minDate.Some? && Less(CellKey(c), CellKey(minDate.value))
  }

  /** The disabled cells are exactly the days before the floor. */
  lemma DisabledIffBefore(c: Civil, minDate: Civil)
    requires FourDigitYear(c) && FourDigitYear(minDate)
    ensures Disabled(c, Some(minDate)) <==> DayNumber(c) < DayNumber(minDate)
    ensures !Disabled(c, None)
  {
    KeyOrder(c, minDate);
  }

  /** Outside four-digit years the order breaks: the last day of 999 sorts after the first of 1000. */
  lemma KeyOrderNeedsFourDigits()
    ensures var a, b := Civil(999, 12, 31), Civil(1000, 1, 1);
            DayNumber(a) < DayNumber(b) && !Less(CellKey(a), CellKey(b))
  {
    var a, b := Civil(999, 12, 31), Civil(1000, 1, 1);
    DayNumberOrders(a, b);
    assert Decimal(99)[0] == Decimal(9)[0] == '9';
    assert Decimal(999)[0] == Decimal(99)[0];
    assert Decimal(10)[0] == Decimal(1)[0] == '1';
    assert Decimal(100)[0] == Decimal(10)[0];
    assert Decimal(1000)[0] == Decimal(100)[0];
    assert CellKey(a)[0] == '9' && CellKey(b)[0] == '1';
  }
}
