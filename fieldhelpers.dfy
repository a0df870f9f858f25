/** The "HH:MM" helpers used when practices are generated from team and field data:
    comparing two times, adding minutes to a time, picking a start among the preferred
    times, clamping the end to the field's closing time, and finding a field large
    enough for a team. The random index becomes a parameter. */
module FieldHelpers {
  import opened Common
  import opened Text
  import opened Times

  // ---------------------------------------------------------------- compareTimings

  /** `timing.split(":").map(parseInt)`: the hour and minute; a missing part is NaN. */
  function ClockParts(t: string): (Option<int>, Option<int>) {
    var parts := Split(t, ":");
    (ParseInt(parts[0]), if |parts| >= 2 then ParseInt(parts[1]) else None)
  }

  /** `compareTimings`: the difference of the hours when they differ, else of the
      minutes; NaN (`None`) when a needed part is NaN. */
  function CompareTimings(t1: string, t2: string): Option<int> {
    var (h1, m1) := ClockParts(t1);
    var (h2, m2) := ClockParts(t2);
    if h1.None? || h2.None? then None
    else if h1.value != h2.value then Some(h1.value - h2.value)
    else if m1.Some? && m2.Some? then Some(m1.value - m2.value)
    else None
  }

  /** `compareTimings(a, b) <= 0`, which NaN fails. */
  predicate CompareLe(a: string, b: string) {
    var c := CompareTimings(a, b);
    c.Some? && c.value <= 0
  }

  /** A rendered time reads back as its hour and minute. */
  lemma TimeParts(m: int)
    requires m >= 0
    ensures ClockParts(MinutesToTime(m)) == (Some(m / 60), Some(m % 60))
  {
    var h := PadStart(ShowNat(m / 60), 2, '0');
    var mm := PadStart(ShowNat(m % 60), 2, '0');
    assert MinutesToTime(m) == h + [':'] + mm;
    Padded2Value(m / 60);
    Padded2Value(m % 60);
    SplitTime(h, mm);
  }

  /** On rendered times the comparison has the sign of the difference in minutes. */
  lemma CompareTimingsSign(a: int, b: int)
    requires a >= 0 && b >= 0
    ensures var c := CompareTimings(MinutesToTime(a), MinutesToTime(b));
      c.Some? && (c.value < 0 <==> a < b) && (c.value == 0 <==> a == b) && (c.value > 0 <==> a > b)
  {
    TimeParts(a);
    TimeParts(b);
    CompareParts(MinutesToTime(a), MinutesToTime(b), a / 60, a % 60, b / 60, b % 60);
    HourMinuteOrder(a, b);
  }

  /** The comparison of two times that parse. */
  lemma CompareParts(t1: string, t2: string, h1: int, m1: int, h2: int, m2: int)
    requires ClockParts(t1) == (Some(h1), Some(m1)) && ClockParts(t2) == (Some(h2), Some(m2))
    ensures CompareTimings(t1, t2) == Some(if h1 != h2 then h1 - h2 else m1 - m2)
  {
  }

  /** Comparing hours, then minutes, orders minutes since midnight. */
  lemma HourMinuteOrder(a: int, b: int)
    requires a >= 0 && b >= 0
    ensures var d := if a / 60 != b / 60 then a / 60 - b / 60 else a % 60 - b % 60;
      (d < 0 <==> a < b) && (d == 0 <==> a == b) && (d > 0 <==> a > b)
  {
  }

  // ---------------------------------------------------------------- addMinutes

  /** `${n < 10 ? "0" : ""}${n}`. */
  function Pad0(n: int): (s: string)
    ensures n >= 0 ==> s == PadStart(ShowNat(n), 2, '0')
  {
    (if n < 10 then "0" else "") + ShowInt(n)
  }

  /** `addMinutes`: the total in minutes, floored to hours and JavaScript's remainder for
      the minutes, each with a leading zero below ten; "NaN:NaN" when the time does not
      parse. */
  function AddMinutes(t: string, k: int): string {
    var (h, m) := ClockParts(t);
    if h.None? || m.None? then "NaN:NaN"
    else Render(Total(h.value, m.value, k))
  }

  /** `hour * 60 + minute + minutes`. */
  function Total(h: int, m: int, k: int): int {
    h * 60 + m + k
  }

  /** The new hour (`Math.floor(total / 60)`) and minute (`total % 60`), each padded. */
  function Render(total: int): string {
    Pad0(total / 60) + ":" + Pad0(JsRem(total, 60))
  }

  /** For a non-negative total the padding agrees with the scheduler's own rendering. */
  lemma RenderAsMinutesToTime(n: int)
    requires n >= 0
    ensures Render(n) == MinutesToTime(n)
  {
    assert JsRem(n, 60) == n % 60;
  }

  /** Adding minutes to a time that parses renders the new total as the scheduler renders
      times, so it reads back as the sum and both parts have at least two digits. */
  lemma AddMinutesSpec(t: string, h: int, m: int, k: int, total: int)
    requires ClockParts(t) == (Some(h), Some(m))
    requires total == Total(h, m, k) && total >= 0
    ensures AddMinutes(t, k) == MinutesToTime(total)
    ensures TimeToMinutes(AddMinutes(t, k)) == Some(total)
    ensures |Split(AddMinutes(t, k), ":")| == 2
    ensures forall part | part in Split(AddMinutes(t, k), ":") :: |part| >= 2
  {
    AddMinutesRenders(t, h, m, k, total);
    MinutesToTimeRoundTrip(total);
    RenderedParts(total);
  }

  /** Adding minutes renders the new total as the scheduler renders times. */
  lemma AddMinutesRenders(t: string, h: int, m: int, k: int, total: int)
    requires ClockParts(t) == (Some(h), Some(m))
    requires total == Total(h, m, k) && total >= 0
    ensures AddMinutes(t, k) == MinutesToTime(total)
  {
    RenderAsMinutesToTime(total);
  }

  /** A rendered time splits into two parts of at least two digits. */
  lemma RenderedParts(n: int)
    requires n >= 0
    ensures Split(MinutesToTime(n), ":") == [PadStart(ShowNat(n / 60), 2, '0'), PadStart(ShowNat(n % 60), 2, '0')]
  {
    var h := PadStart(ShowNat(n / 60), 2, '0');
    var mm := PadStart(ShowNat(n % 60), 2, '0');
    Padded2Value(n / 60);
    Padded2Value(n % 60);
    SplitTime(h, mm);
    assert MinutesToTime(n) == h + [':'] + mm;
  }

  lemma TotalOfParts(m: int, k: int, n: int)
    requires n == m + k
    ensures Total(m / 60, m % 60, k) == n
  {
  }

  /** For a rendered time, adding minutes adds them. */
  lemma AddMinutesRoundTrip(m: int, k: int, n: int)
    requires m >= 0 && n == m + k && n >= 0
    ensures AddMinutes(MinutesToTime(m), k) == MinutesToTime(n)
    ensures TimeToMinutes(AddMinutes(MinutesToTime(m), k)) == Some(n)
  {
    TimeParts(m);
    TotalOfParts(m, k, n);
    AddMinutesSpec(MinutesToTime(m), m / 60, m % 60, k, n);
  }

  // ---------------------------------------------------------------- start and end times

  /** The preferred times within [open, close], or none when the team prefers "evening"
      and the field has no lights. */
  function AvailableTimings(open: string, close: string, preferred: seq<string>, hasLights: bool): (r: seq<string>)
    ensures forall t | t in r :: t in preferred && CompareLe(open, t) && CompareLe(t, close)
    ensures hasLights || "evening" !in preferred ==>
      forall t | t in preferred && CompareLe(open, t) && CompareLe(t, close) :: t in r
    ensures !hasLights && "evening" in preferred ==> r == []
  {
    var filtered := Filter(preferred, t => CompareLe(open, t) && CompareLe(t, close));
    if hasLights || "evening" !in preferred then filtered else []
  }

  /** `availableTimings[Math.floor(Math.random() * length)]`, with the drawn index as the
      parameter `pick` (any index is reachable); the empty string stands for `undefined`,
      which is falsy like it. */
  function Pick(available: seq<string>, pick: nat): string {
    if |available| == 0 then "" else available[pick % |available|]
  }

  /** `getRandomStartTime`: the picked preferred time, or the opening time when there is
      none (or it is the empty string). */
  function GetRandomStartTime(open: string, close: string, preferred: seq<string>, hasLights: bool, pick: nat): string {
    var chosen := Pick(AvailableTimings(open, close, preferred, hasLights), pick);
    if chosen == "" then open else chosen
  }

  /** The start is the opening time or a preferred time within [open, close]; it is the
      opening time when the team prefers "evening" on a field without lights. */
  lemma StartTimeSpec(open: string, close: string, preferred: seq<string>, hasLights: bool, pick: nat)
    ensures var r := GetRandomStartTime(open, close, preferred, hasLights, pick);
      r == open || (r in preferred && CompareLe(open, r) && CompareLe(r, close))
    ensures !hasLights && "evening" in preferred ==>
      GetRandomStartTime(open, close, preferred, hasLights, pick) == open
  {
    var available := AvailableTimings(open, close, preferred, hasLights);
    if |available| > 0 {
      assert available[pick % |available|] in available;
    }
  }

  lemma ModSmall(i: nat, n: nat)
    requires i < n
    ensures i % n == i
  {
    AbsMul(n, i / n);
  }

  /** Every non-empty available preferred time is the start for some draw. */
  lemma StartTimeReachable(open: string, close: string, preferred: seq<string>, hasLights: bool, i: nat)
    requires i < |AvailableTimings(open, close, preferred, hasLights)|
    requires AvailableTimings(open, close, preferred, hasLights)[i] != ""
    ensures GetRandomStartTime(open, close, preferred, hasLights, i) == AvailableTimings(open, close, preferred, hasLights)[i]
  {
    var available := AvailableTimings(open, close, preferred, hasLights);
    ModSmall(i, |available|);
  }

  /** Ninety minutes after the start, or the closing time when that is later. */
  function ClampEnd(start: string, close: string): string {
    var end := AddMinutes(start, 90);
    if CompareLe(end, close) then end else close
  }

  /** `getRandomEndTime`: it repeats `getRandomStartTime`'s filter and draw, so with the
      same draw it starts from the same time, and clamps ninety minutes after it. */
  function GetRandomEndTime(open: string, close: string, preferred: seq<string>, hasLights: bool, pick: nat): string {
    ClampEnd(GetRandomStartTime(open, close, preferred, hasLights, pick), close)
  }

  /** The end is the closing time, or ninety minutes after the start when that compares
      no later than the closing time. */
  lemma EndTimeSpec(open: string, close: string, preferred: seq<string>, hasLights: bool, pick: nat)
    ensures var start := GetRandomStartTime(open, close, preferred, hasLights, pick);
      var r := GetRandomEndTime(open, close, preferred, hasLights, pick);
      (r == close && !CompareLe(AddMinutes(start, 90), close))
      || (r == AddMinutes(start, 90) && CompareLe(r, close))
  {
  }

  /** On rendered times the end is the earlier of start + 90 and the closing time. */
  lemma ClampEndMinutes(s: int, c: int, e: int)
    requires s >= 0 && c >= 0 && e == s + 90
    ensures e <= c ==> ClampEnd(MinutesToTime(s), MinutesToTime(c)) == MinutesToTime(e)
    ensures e > c ==> ClampEnd(MinutesToTime(s), MinutesToTime(c)) == MinutesToTime(c)
  {
    AddMinutesRoundTrip(s, 90, e);
    CompareTimingsSign(e, c);
  }

  // ---------------------------------------------------------------- getCompatibleField

  /** A field as `getCompatibleField` reads it. */
  datatype PlayingField = PlayingField(
    fieldSize: int, teamsPerField: int, openTime: string, closeTime: string, lightAvailable: bool)

  /** The ceiling of `x / y`. */
  function CeilDiv(x: int, y: int): int
    requires y != 0
  {
    if y > 0 then -((-x) / y) else -(x / -y)
  }

  /** `CeilDiv` is the least integer at or above the quotient. */
  lemma CeilDivSpec(x: int, y: int)
    requires y > 0
    ensures var c := CeilDiv(x, y); y * c >= x && y * (c - 1) < x
  {
    var q := (-x) / y;
    var r := (-x) % y;
    assert -x == y * q + r;
    assert y * -q == x + r;
    assert y * (-q - 1) == x + r - y;
  }

  /** `Math.ceil(1 / (preferredFieldSize / field_size))`: with a zero preferred size the
      quotient is infinite (or NaN) and no field qualifies (`None`); with a zero field size
      it is zero. */
  function TeamsNeeded(preferredSize: int, fieldSize: int): Option<int> {
    if preferredSize == 0 then None
    else if fieldSize == 0 then Some(0)
    else Some(CeilDiv(fieldSize, preferredSize))
  }

  /** For a positive preferred size, a field hosts enough teams exactly when that many
      teams of the preferred size cover the field. */
  lemma TeamsNeededIff(preferredSize: int, fieldSize: int, teams: int)
    requires preferredSize > 0 && fieldSize >= 0
    ensures TeamsNeeded(preferredSize, fieldSize).Some?
    ensures teams >= TeamsNeeded(preferredSize, fieldSize).value <==> teams * preferredSize >= fieldSize
  {
    var c := CeilDiv(fieldSize, preferredSize);
    CeilDivSpec(fieldSize, preferredSize);
    if teams >= c {
      assert teams * preferredSize == c * preferredSize + (teams - c) * preferredSize;
      MulNonNeg(teams - c, preferredSize);
    } else {
      assert (c - 1) * preferredSize == teams * preferredSize + (c - 1 - teams) * preferredSize;
      MulNonNeg(c - 1 - teams, preferredSize);
    }
  }

  lemma MulNonNeg(a: int, b: int)
    requires a >= 0 && b >= 0
    ensures a * b >= 0
  {
  }

  /** The team's window covers the field's: the field opens no earlier than the team's
      start and closes no later than its end. */
  predicate IsEvening(field: PlayingField, from: string, to: string) {
    OpensAfterStart(field, from) && CompareLe(field.closeTime, to)
  }

  /** The field opens no earlier than the team's start, the first half of `isEvening`;
      NaN fails it. */
  predicate OpensAfterStart(field: PlayingField, from: string) {
    var open := CompareTimings(field.openTime, from);
    open.Some? && open.value >= 0
  }

  /** The test `getCompatibleField` applies to each field. */
  predicate Compatible(field: PlayingField, from: string, to: string, preferredSize: int) {
    var needed := TeamsNeeded(preferredSize, field.fieldSize);
    needed.Some? && field.teamsPerField >= needed.value
    && (field.lightAvailable || !IsEvening(field, from, to))
  }

  /** A team's window with no end (a `preferred_timing` without " to ") makes the test
      throw on a field that opens no earlier than the team's start: `isEvening` then hands
      `undefined` to `compareTimings`, whose `split` throws. */
  predicate Throws(field: PlayingField, from: string, to: Option<string>) {
    to.None? && OpensAfterStart(field, from)
  }

  /** The test passes a field it does not throw on. With no end to the window, the
      evening test fails at its first half, so the end is never read. */
  predicate Accepts(field: PlayingField, from: string, to: Option<string>, preferredSize: int) {
    Compatible(field, from, to.GetOr(""), preferredSize)
  }

  /** The test neither throws on the field nor accepts it, so `find` moves on. */
  predicate Passes(field: PlayingField, from: string, to: Option<string>, preferredSize: int) {
    !Throws(field, from, to) && !Accepts(field, from, to, preferredSize)
  }

  /** What `getCompatibleField` ends with: the field `find` returns, if any, or the
      TypeError thrown inside its callback. */
  datatype Lookup = Found(field: Option<PlayingField>) | TypeError

  /** `fields.find(...)`: the fields are tested in order until one is accepted or the test
      throws; a window with an end never throws. */
  function FirstCompatible(fields: seq<PlayingField>, from: string, to: Option<string>, preferredSize: int): (r: Lookup)
    ensures to.Some? ==> r.Found?
    ensures r.Found? && r.field.Some? ==> r.field.value in fields
    decreases |fields|
  {
    if fields == [] then Found(None)
    else if Throws(fields[0], from, to) then TypeError
    else if Accepts(fields[0], from, to, preferredSize) then Found(Some(fields[0]))
    else FirstCompatible(fields[1..], from, to, preferredSize)
  }

  /** `getCompatibleField`: the team's "from to" window split on " to "; without the
      separator the window has no end. */
  function GetCompatibleField(preferredTiming: string, fields: seq<PlayingField>, preferredSize: int): (r: Lookup)
    ensures |Split(preferredTiming, " to ")| >= 2 ==> r.Found?
  {
    var parts := Split(preferredTiming, " to ");
    FirstCompatible(fields, parts[0], if |parts| >= 2 then Some(parts[1]) else None, preferredSize)
  }

  /** The result is decided by the first field the test does not pass over: the TypeError
      when the test throws there, which only a window without an end can cause, and that
      field otherwise; nothing is found exactly when every field is passed over. */
  lemma {:induction false} FirstCompatibleSpec(fields: seq<PlayingField>, from: string, to: Option<string>, preferredSize: int)
    ensures var r := FirstCompatible(fields, from, to, preferredSize);
      && (r.Found? && r.field.Some? ==> exists i | 0 <= i < |fields| ::
            (&& fields[i] == r.field.value
             && Accepts(fields[i], from, to, preferredSize) && !Throws(fields[i], from, to)
             && forall j | 0 <= j < i :: Passes(fields[j], from, to, preferredSize)))
      && (r.TypeError? ==> to.None? && exists i | 0 <= i < |fields| ::
            (&& Throws(fields[i], from, to)
             && forall j | 0 <= j < i :: Passes(fields[j], from, to, preferredSize)))
      && (r == Found(None) <==> forall f | f in fields :: Passes(f, from, to, preferredSize))
    decreases |fields|
  {
    var r := FirstCompatible(fields, from, to, preferredSize);
    if fields != [] && Passes(fields[0], from, to, preferredSize) {
      var tail := fields[1..];
      FirstCompatibleSpec(tail, from, to, preferredSize);
      assert r == FirstCompatible(tail, from, to, preferredSize);
      if r.Found? && r.field.Some? {
        var i :| 0 <= i < |tail| && tail[i] == r.field.value
          && Accepts(tail[i], from, to, preferredSize) && !Throws(tail[i], from, to)
          && forall j | 0 <= j < i :: Passes(tail[j], from, to, preferredSize);
        assert fields[i + 1] == tail[i];
        forall j | 0 <= j < i + 1 ensures Passes(fields[j], from, to, preferredSize) {
          if j > 0 {
            assert fields[j] == tail[j - 1];
          }
        }
      } else if r.TypeError? {
        var i :| 0 <= i < |tail| && Throws(tail[i], from, to)
          && forall j | 0 <= j < i :: Passes(tail[j], from, to, preferredSize);
        assert fields[i + 1] == tail[i];
        forall j | 0 <= j < i + 1 ensures Passes(fields[j], from, to, preferredSize) {
          if j > 0 {
            assert fields[j] == tail[j - 1];
          }
        }
      }
      if forall f | f in tail :: Passes(f, from, to, preferredSize) {
        forall f | f in fields ensures Passes(f, from, to, preferredSize) {
          if f != fields[0] {
            var k :| 0 <= k < |fields| && fields[k] == f;
            assert tail[k - 1] == f;
          }
        }
      } else {
        var f :| f in tail && !Passes(f, from, to, preferredSize);
        assert f in fields;
      }
    } else if fields != [] {
      assert fields[0] in fields && !Passes(fields[0], from, to, preferredSize);
    }
  }
}
