/** Times of day as the scheduler writes them ("HH:MM") and as it computes with them
    (minutes since midnight). */
module Times {
  import opened Common
  import opened Text

  /** `convertTimeToMinutes` / `parseTimeToMinutes`: split on ':' and apply `Number`
      to the first two parts; a missing or non-numeric part gives NaN (`None`). */
  function TimeToMinutes(s: string): (r: Option<int>)
    ensures r.Some? ==> r.value >= 0
  {
    PartsToMinutes(Split(s, ":"))
  }

  function PartsToMinutes(parts: seq<string>): (r: Option<int>)
    ensures r.Some? ==> r.value >= 0
  {
    if |parts| < 2 then None
    else match (ToNumber(parts[0]), ToNumber(parts[1]))
      case (Some(h), Some(m)) => Some(h * 60 + m)
      case _ => None
  }

  /** `convertMinutesToTime`: floor of the hours and JavaScript remainder of the
      minutes, each rendered with at least two digits. */
  function MinutesToTime(m: int): (s: string)
    ensures m >= 0 ==> ':' in s
  {
    PadStart(ShowInt(m / 60), 2, '0') + ":" + PadStart(ShowInt(JsRem(m, 60)), 2, '0')
  }

  /** A two-or-more digit rendering of a natural number, as `String(n).padStart(2, '0')`. */
  lemma Padded2Value(n: nat)
    ensures AllDigits(PadStart(ShowNat(n), 2, '0'))
    ensures DigitsValue(PadStart(ShowNat(n), 2, '0')) == n
  {
    ShowNatValue(n);
    PadZeroValue(ShowNat(n), 2);
  }

  lemma SplitTime(h: string, mm: string)
    requires AllDigits(h) && AllDigits(mm)
    ensures Split(h + [':'] + mm, [':']) == [h, mm]
  {
    DigitsHaveNoSeparator(h, ':');
    DigitsHaveNoSeparator(mm, ':');
    SplitAtSeparator(h, ':', mm);
    SplitNoSeparator(mm, ':');
  }

  lemma PartsOfDigits(h: string, mm: string)
    requires AllDigits(h) && AllDigits(mm)
    ensures PartsToMinutes([h, mm]) == Some(DigitsValue(h) * 60 + DigitsValue(mm))
  {
  }

  lemma TimeOfDigits(s: string, h: string, mm: string)
    requires AllDigits(h) && AllDigits(mm) && s == h + [':'] + mm
    ensures TimeToMinutes(s) == Some(DigitsValue(h) * 60 + DigitsValue(mm))
  {
    SplitTime(h, mm);
    PartsOfDigits(h, mm);
  }

  /** Reading back a time the scheduler wrote gives the same number of minutes. */
  lemma MinutesToTimeRoundTrip(m: int)
    requires m >= 0
    ensures TimeToMinutes(MinutesToTime(m)) == Some(m)
  {
    var h := PadStart(ShowNat(m / 60), 2, '0');
    var mm := PadStart(ShowNat(m % 60), 2, '0');
    assert MinutesToTime(m) == h + [':'] + mm;
    Padded2Value(m / 60);
    Padded2Value(m % 60);
    TimeOfDigits(MinutesToTime(m), h, mm);
  }

  /** For times below 100 hours the rendering is five characters "HH:MM". */
  lemma MinutesToTimeShape(m: int)
    requires 0 <= m < 6000
    ensures MinutesToTime(m) ==
      [DigitChar(m / 60 / 10), DigitChar(m / 60 % 10), ':', DigitChar(m % 60 / 10), DigitChar(m % 60 % 10)]
  {
    Pad2Digits(m / 60);
    Pad2Digits(m % 60);
  }

  lemma StrLt5(x: string, y: string)
    requires |x| == 5 && |y| == 5
    ensures StrLt(x, y) <==>
      x[0] < y[0] || (x[0] == y[0] && (x[1] < y[1] || (x[1] == y[1] && (x[2] < y[2] ||
      (x[2] == y[2] && (x[3] < y[3] || (x[3] == y[3] && x[4] < y[4])))))))
  {
    assert x == [x[0]] + x[1..] && y == [y[0]] + y[1..];
    StrLtCons(x[0], x[1..], y[0], y[1..]);
    assert x[1..] == [x[1]] + x[2..] && y[1..] == [y[1]] + y[2..];
    StrLtCons(x[1], x[2..], y[1], y[2..]);
    assert x[2..] == [x[2]] + x[3..] && y[2..] == [y[2]] + y[3..];
    StrLtCons(x[2], x[3..], y[2], y[3..]);
    assert x[3..] == [x[3]] + x[4..] && y[3..] == [y[3]] + y[4..];
    StrLtCons(x[3], x[4..], y[3], y[4..]);
    assert x[4..] == [x[4]] + x[5..] && y[4..] == [y[4]] + y[5..];
    StrLtCons(x[4], x[5..], y[4], y[5..]);
  }

  lemma Radix60Order(x: int, y: int)
    requires x >= 0 && y >= 0
    ensures x < y <==> x / 60 < y / 60 || (x / 60 == y / 60 && x % 60 < y % 60)
    ensures x == y <==> x / 60 == y / 60 && x % 60 == y % 60
  {
  }


  /** Minutes compare like their hour-tens, hour-units, minute-tens, minute-units digits. */
  lemma MinuteDigitsOrder(a: int, b: int)
    requires 0 <= a < 6000 && 0 <= b < 6000
    ensures a < b <==>
      a / 60 / 10 < b / 60 / 10 || (a / 60 / 10 == b / 60 / 10 && (a / 60 % 10 < b / 60 % 10 ||
      (a / 60 % 10 == b / 60 % 10 && (a % 60 / 10 < b % 60 / 10 ||
      (a % 60 / 10 == b % 60 / 10 && a % 60 % 10 < b % 60 % 10)))))
    ensures a == b <==>
      a / 60 / 10 == b / 60 / 10 && a / 60 % 10 == b / 60 % 10 && a % 60 / 10 == b % 60 / 10 && a % 60 % 10 == b % 60 % 10
  {
    Radix60Order(a, b);
    Radix10Order(a / 60, b / 60);
    Radix10Order(a % 60, b % 60);
  }

  /** Comparing two rendered times as strings (as the database queries and the staged
      overlap test do) agrees with comparing their minutes, for times below 100 hours;
      this is what lets the rest of the model compare minutes. */
  lemma TimeStringOrder(a: int, b: int)
    requires 0 <= a < 6000 && 0 <= b < 6000
    ensures StrLt(MinutesToTime(a), MinutesToTime(b)) <==> a < b
    ensures MinutesToTime(a) == MinutesToTime(b) <==> a == b
  {
    MinutesToTimeShape(a);
    MinutesToTimeShape(b);
    DigitCharOrder(a / 60 / 10, b / 60 / 10);
    DigitCharOrder(a / 60 % 10, b / 60 % 10);
    DigitCharOrder(a % 60 / 10, b % 60 / 10);
    DigitCharOrder(a % 60 % 10, b % 60 % 10);
    StrLt5(MinutesToTime(a), MinutesToTime(b));
    MinuteDigitsOrder(a, b);
  }

  lemma TimeStringOrderLe(a: int, b: int)
    requires 0 <= a < 6000 && 0 <= b < 6000
    ensures StrLe(MinutesToTime(a), MinutesToTime(b)) <==> a <= b
  {
    TimeStringOrder(a, b);
  }
}
