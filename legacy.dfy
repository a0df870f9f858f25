/** The older allocator's decisions: the interval tests, coach selection against the
    Schedule collection, the preferred-timing filter, and `schedulePractice`, which places
    one practice in a reservation, records it and cuts it out of the slot ledger. Times
    are minutes; dates are the stored strings, with the day number beside them. */
module Legacy {
  import opened Common
  import opened Records
  import opened Text
  import opened Dates
  import opened Portions
  import opened Ledger

  /** One `travelling_date` entry: the stored start and end strings. */
  datatype Trip = Trip(start: string, end: string)

  /** A coach as this allocator reads one: club, active flag, coaching window and the
      number of practices they take in a day (`max_team_you_coach`, possibly absent). */
  datatype LegacyCoach = LegacyCoach(
    id: int, club: int, active: bool, windowStart: int, windowEnd: int, maxTeams: Option<int>)

  /** A document of the Schedule collection as this allocator writes it. `portionName` is
      the UTF-16 code unit `String.fromCharCode` is given. */
  datatype LegacySchedule = LegacySchedule(
    team: int, club: int, coach: int, field: int, fieldPortion: Portion, date: string,
    start: int, end: int, length: int, portionName: int)

  /** A document of the Slots collection: the ledger of one reservation. */
  datatype SlotDoc = SlotDoc(id: int, field: int, date: string, entries: seq<Slot>)

  // ---------------------------------------------------------------- interval tests

  /** `checkOverlaps`: the schedule starts inside the reservation, ends inside it, or
      straddles it. */
  predicate CheckOverlaps(ss: int, rs: int, se: int, re: int) {
    (ss >= rs && ss < re) || (se > rs && se <= re) || (ss < rs && se > re)
  }

  /** `checkAvailability`: the coach's window and the practice intersect. */
  predicate CheckAvailability(cs: int, ce: int, rs: int, re: int) {
    cs < re && ce > rs
  }

  /** For a schedule of positive length the three disjuncts say exactly that the two
      half-open intervals intersect. */
  lemma CheckOverlapsIff(ss: int, rs: int, se: int, re: int)
    requires ss < se && rs <= re
    ensures CheckOverlaps(ss, rs, se, re) <==> ss < re && rs < se
  {
  }

  /** Without the positive length the test is not an intersection test: an empty schedule
      starting inside the practice still counts as overlapping. */
  lemma CheckOverlapsEmpty()
    ensures CheckOverlaps(10, 0, 5, 20) && !(10 < 5)
  {
  }

  // ---------------------------------------------------------------- coach selection

  /** The coach's schedules on the date (`Schedule.find({ coach_id, schedule_date })`). */
  function CoachDay(schedules: seq<LegacySchedule>, coach: int, date: string): (r: seq<LegacySchedule>)
    ensures forall s | s in r :: s in schedules && s.coach == coach && s.date == date
    ensures forall s | s in schedules && s.coach == coach && s.date == date :: s in r
    decreases |schedules|
  {
    if schedules == [] then []
    else
      var init, last := schedules[..|schedules| - 1], schedules[|schedules| - 1];
      assert forall s | s in init :: s in schedules;
      CoachDay(init, coach, date)
      + (if last.coach == coach && last.date == date then [last] else [])
  }

  /** `existingSchedules.length >= coach.max_team_you_coach`; an absent maximum compares
      false. */
  predicate AtCapacity(maxTeams: Option<int>, count: int) {
    maxTeams.Some? && count >= maxTeams.value
  }

  /** `checkCoachAvailability`: below capacity, and every existing practice of the coach
      that day passes "no overlap and the coach's window meets the practice". */
  predicate CheckCoachAvailability(coach: LegacyCoach, schedules: seq<LegacySchedule>, date: string, start: int, end: int) {
    var existing := CoachDay(schedules, coach.id, date);
    !AtCapacity(coach.maxTeams, |existing|)
    && forall s | s in existing ::
         !CheckOverlaps(s.start, start, s.end, end)
         && CheckAvailability(coach.windowStart, coach.windowEnd, start, end)
  }

  /** With practices of positive length, a coach is available exactly when they are below
      capacity and none of their practices that day meets the new one, and, if they have
      any, their window meets it; with none the window is never looked at. */
  lemma CoachAvailabilitySpec(coach: LegacyCoach, schedules: seq<LegacySchedule>, date: string, start: int, end: int)
    requires start <= end && forall s | s in schedules :: s.start < s.end
    ensures var existing := CoachDay(schedules, coach.id, date);
      CheckCoachAvailability(coach, schedules, date, start, end) <==>
        && !AtCapacity(coach.maxTeams, |existing|)
        && (forall s | s in schedules && s.coach == coach.id && s.date == date :: !(s.start < end && start < s.end))
        && (existing != [] ==> coach.windowStart < end && coach.windowEnd > start)
  {
    var existing := CoachDay(schedules, coach.id, date);
    if existing != [] {
      assert existing[0] in existing;
    }
    forall s | s in existing {
      CheckOverlapsIff(s.start, start, s.end, end);
    }
  }

  /** A coach with nothing on that day is available whatever their window. */
  lemma FreeCoachIgnoresWindow()
    ensures CheckCoachAvailability(LegacyCoach(1, 1, true, 480, 540, Some(1)), [], "06/03/2024", 1080, 1140)
    ensures !CheckAvailability(480, 540, 1080, 1140)
  {
  }

  /** The first coach of the list that `checkCoachAvailability` accepts. */
  function FirstAvailable(coaches: seq<LegacyCoach>, schedules: seq<LegacySchedule>, date: string, start: int, end: int): (r: Option<LegacyCoach>)
    decreases |coaches|
  {
    if coaches == [] then None
    else if CheckCoachAvailability(coaches[0], schedules, date, start, end) then Some(coaches[0])
    else FirstAvailable(coaches[1..], schedules, date, start, end)
  }

  /** The result is an available coach of the list with every coach before it unavailable,
      or nothing when no coach of the list is available. */
  lemma {:induction false} FirstAvailableSpec(coaches: seq<LegacyCoach>, schedules: seq<LegacySchedule>, date: string, start: int, end: int)
    ensures var r := FirstAvailable(coaches, schedules, date, start, end);
      && (r.Some? ==> exists i | 0 <= i < |coaches| ::
            (&& coaches[i] == r.value
             && CheckCoachAvailability(coaches[i], schedules, date, start, end)
             && forall j | 0 <= j < i :: !CheckCoachAvailability(coaches[j], schedules, date, start, end)))
      && (r.None? ==> forall c | c in coaches :: !CheckCoachAvailability(c, schedules, date, start, end))
    decreases |coaches|
  {
    if coaches != [] && !CheckCoachAvailability(coaches[0], schedules, date, start, end) {
      var tail := coaches[1..];
      FirstAvailableSpec(tail, schedules, date, start, end);
      var r := FirstAvailable(coaches, schedules, date, start, end);
      if r.Some? {
        var i :| 0 <= i < |tail| && tail[i] == r.value
          && CheckCoachAvailability(tail[i], schedules, date, start, end)
          && forall j | 0 <= j < i :: !CheckCoachAvailability(tail[j], schedules, date, start, end);
        assert coaches[i + 1] == r.value;
        forall j | 0 <= j < i + 1 ensures !CheckCoachAvailability(coaches[j], schedules, date, start, end) {
          if j > 0 {
            assert coaches[j] == tail[j - 1];
          }
        }
      } else {
        forall c | c in coaches ensures !CheckCoachAvailability(c, schedules, date, start, end) {
          if c != coaches[0] {
            var k :| 0 <= k < |coaches| && coaches[k] == c;
            assert tail[k - 1] == c;
          }
        }
      }
    } else if coaches != [] {
      assert coaches[0] == FirstAvailable(coaches, schedules, date, start, end).value;
    }
  }

  /** `findCompatibleCoach`: the coaches are tried in order and the first available one is
      returned. */
  method FindCompatibleCoach(coaches: seq<LegacyCoach>, schedules: seq<LegacySchedule>, date: string, start: int, end: int)
    returns (r: Option<LegacyCoach>)
    ensures r == FirstAvailable(coaches, schedules, date, start, end)
  {
    for i := 0 to |coaches|
      invariant FirstAvailable(coaches[i..], schedules, date, start, end) == FirstAvailable(coaches, schedules, date, start, end)
    {
      assert coaches[i..][1..] == coaches[i + 1..];
      if CheckCoachAvailability(coaches[i], schedules, date, start, end) {
        return Some(coaches[i]);
      }
    }
    return None;
  }

  /** `Coach.find({ club_id, is_active: true })`. */
  function ClubCoaches(coaches: seq<LegacyCoach>, club: int): (r: seq<LegacyCoach>)
    ensures forall c | c in r :: c in coaches && c.club == club && c.active
    ensures forall c | c in coaches && c.club == club && c.active :: c in r
    decreases |coaches|
  {
    if coaches == [] then []
    else
      var init, last := coaches[..|coaches| - 1], coaches[|coaches| - 1];
      assert forall c | c in init :: c in coaches;
      ClubCoaches(init, club) + (if last.club == club && last.active then [last] else [])
  }

  // ---------------------------------------------------------------- preferred timing

  /** Milliseconds in a day. */
  const MsPerDay := 86_400_000

  /** The largest distance from the epoch a Date can hold, in milliseconds. */
  const MaxTimeValue := 8_640_000_000_000_000

  /** `convertDateToMilliseconds`: split on '-' into year, month and day, read each with
      `Number` and build `new Date(year, month - 1, day)`; an Invalid Date gives 0. Day
      numbers count from 1 January 1970, so a valid date is its day times `MsPerDay`. */
  function DateMillis(s: string): int {
    PartsToMillis(Split(s, "-"))
  }

  function PartsToMillis(parts: seq<string>): int {
    if |parts| < 3 then 0
    else match (ToNumber(parts[0]), ToNumber(parts[1]), ToNumber(parts[2]))
      case (Some(year), Some(month), Some(day)) => DayMillis(MakeDay(year, month - 1, day))
      case _ => 0
  }

  /** The time value of a day's midnight, or 0 (Invalid Date) beyond the range a Date holds. */
  function DayMillis(z: int): int {
    var ms := z * MsPerDay;
    if -MaxTimeValue <= ms <= MaxTimeValue then ms else 0
  }

  /** The "YYYY-MM-DD" spelling of a day. */
  function IsoDate(z: int): string {
    var c := CivilFromDays(z);
    ShowInt(c.year) + "-" + PadStart(ShowNat(c.month), 2, '0') + "-" + PadStart(ShowNat(c.day), 2, '0')
  }

  /** A string without a '-' is a single part, so it reads as an Invalid Date: 0. */
  lemma UndashedMillis(s: string)
    requires '-' !in s
    ensures DateMillis(s) == 0
  {
    SplitNoSeparator(s, '-');
  }

  /** So does every "MM/DD/YYYY" date `formatDate` writes. */
  lemma FormattedDateMillis(z: int)
    requires CivilFromDays(z).year >= 0
    ensures DateMillis(FormatDate(z)) == 0
  {
    var c := CivilFromDays(z);
    DigitsHaveNoSeparator(PadStart(ShowNat(c.month), 2, '0'), '-');
    DigitsHaveNoSeparator(PadStart(ShowNat(c.day), 2, '0'), '-');
    DigitsHaveNoSeparator(ShowNat(c.year), '-');
    UndashedMillis(FormatDate(z));
  }

  lemma SplitDashed(yy: string, mm: string, dd: string, s: string)
    requires AllDigits(yy) && AllDigits(mm) && AllDigits(dd)
    requires s == yy + ['-'] + (mm + ['-'] + dd)
    ensures Split(s, "-") == [yy, mm, dd]
  {
    DigitsHaveNoSeparator(yy, '-');
    DigitsHaveNoSeparator(mm, '-');
    DigitsHaveNoSeparator(dd, '-');
    SplitAtSeparator(yy, '-', mm + ['-'] + dd);
    SplitAtSeparator(mm, '-', dd);
    SplitNoSeparator(dd, '-');
  }

  /** Three digit runs joined by '-' are read as the date they name. */
  lemma DashedDigitsMillis(yy: string, mm: string, dd: string, s: string)
    requires AllDigits(yy) && AllDigits(mm) && AllDigits(dd)
    requires s == yy + ['-'] + (mm + ['-'] + dd)
    ensures DateMillis(s) == DayMillis(MakeDay(DigitsValue(yy), DigitsValue(mm) - 1, DigitsValue(dd)))
  {
    SplitDashed(yy, mm, dd, s);
  }

  /** A "YYYY-MM-DD" date from the year 100 on is read back as its day. */
  lemma IsoDateDay(z: int)
    requires CivilFromDays(z).year >= 100
    ensures DateMillis(IsoDate(z)) == DayMillis(z)
  {
    var c := CivilFromDays(z);
    var yy := ShowNat(c.year);
    var mm := PadStart(ShowNat(c.month), 2, '0');
    var dd := PadStart(ShowNat(c.day), 2, '0');
    ShowNatValue(c.year);
    ShowNatValue(c.month);
    PadZeroValue(ShowNat(c.month), 2);
    ShowNatValue(c.day);
    PadZeroValue(ShowNat(c.day), 2);
    assert IsoDate(z) == yy + ['-'] + (mm + ['-'] + dd);
    MakeDayOfCivil(z);
    DashedDigitsMillis(yy, mm, dd, IsoDate(z));
  }

  /** Within the range a Date holds, the day's time value is its day times `MsPerDay`. */
  lemma IsoDateMillis(z: int)
    requires CivilFromDays(z).year >= 100 && -100_000_000 <= z <= 100_000_000
    ensures DateMillis(IsoDate(z)) == z * MsPerDay
  {
    IsoDateDay(z);
  }

  /** Between "YYYY-MM-DD" dates the millisecond comparison is the comparison of days. */
  lemma IsoDatesCompareByDay(a: int, z: int, b: int)
    requires CivilFromDays(a).year >= 100 && -100_000_000 <= a <= 100_000_000
    requires CivilFromDays(z).year >= 100 && -100_000_000 <= z <= 100_000_000
    requires CivilFromDays(b).year >= 100 && -100_000_000 <= b <= 100_000_000
    ensures DateMillis(IsoDate(a)) <= DateMillis(IsoDate(z)) <= DateMillis(IsoDate(b)) <==> a <= z <= b
  {
    IsoDateMillis(a);
    IsoDateMillis(z);
    IsoDateMillis(b);
  }

  /** Some trip's range, in milliseconds, contains the time. */
  function OnTrip(trips: seq<Trip>, ms: int): (r: bool)
    ensures r <==> exists t | t in trips :: DateMillis(t.start) <= ms <= DateMillis(t.end)
    decreases |trips|
  {
    if trips == [] then false
    else
      assert forall t | t in trips[1..] :: t in trips;
      (DateMillis(trips[0].start) <= ms <= DateMillis(trips[0].end)) || OnTrip(trips[1..], ms)
  }

  /** `isReservationWithinPreferredTiming`. The regions are compared exactly (a missing
      field region matches nothing); the weekday is the reservation day's name; the travel
      test compares the dates as `convertDateToMilliseconds` reads them. */
  function WithinPreferredTiming(r: Reservation, team: Team, travelling: bool, trips: seq<Trip>): (ok: bool)
    ensures ok <==>
      && r.field.region == Some(team.region)
      && WeekdayName(r.day) in team.preferredDays
      && !(travelling && exists t | t in trips :: DateMillis(t.start) <= DateMillis(r.date) <= DateMillis(t.end))
      && r.start <= team.preferredStart && team.preferredStart + team.practiceLength <= r.end
  {
    if r.field.region == Some(team.region) then
      if WeekdayName(r.day) !in team.preferredDays then false
      else if travelling && OnTrip(trips, DateMillis(r.date)) then false
      else r.start <= team.preferredStart && team.preferredStart + team.practiceLength <= r.end
    else false
  }

  /** A reservation date without a '-' (a "MM/DD/YYYY" date) reads as 0, so trips that
      start after the epoch never exclude it: travelling changes nothing. */
  lemma UndashedDateNeverAway(r: Reservation, team: Team, trips: seq<Trip>)
    requires '-' !in r.date
    requires forall t | t in trips :: DateMillis(t.start) > 0
    ensures WithinPreferredTiming(r, team, true, trips) == WithinPreferredTiming(r, team, false, trips)
  {
    UndashedMillis(r.date);
  }

  /** When a trip's dates have no '-' either, every date reads as 0 and a travelling team
      is excluded from every reservation with such a date. */
  lemma UndashedTripAlwaysAway(r: Reservation, team: Team, trips: seq<Trip>)
    requires '-' !in r.date && trips != [] && '-' !in trips[0].start && '-' !in trips[0].end
    ensures !WithinPreferredTiming(r, team, true, trips)
  {
    UndashedMillis(r.date);
    UndashedMillis(trips[0].start);
    UndashedMillis(trips[0].end);
    assert trips[0] in trips;
  }

  // ---------------------------------------------------------------- schedulePractice

  /** The practice starts at the team's preferred start when the preferred window lies in
      the reservation, otherwise at the reservation's start. */
  function StartOf(team: Team, r: Reservation): int {
    if team.preferredStart >= r.start && team.preferredEnd <= r.end then team.preferredStart else r.start
  }

  /** The practice ends the team's length after its start. */
  function EndOf(team: Team, r: Reservation): int {
    StartOf(team, r) + team.practiceLength
  }

  /** The chosen start lies in the reservation whenever the reservation is well formed, and
      it is the preferred start exactly when the preferred window fits. */
  lemma StartOfSpec(team: Team, r: Reservation)
    requires r.start <= r.end
    ensures StartOf(team, r) >= r.start
    ensures StartOf(team, r) == team.preferredStart <==>
      (team.preferredStart >= r.start && team.preferredEnd <= r.end) || team.preferredStart == r.start
  {
  }

  /** The query of `schedulePractice` for practices in one window: the same field, date,
      start and end. */
  function InWindow(field: int, date: string, start: int, end: int): LegacySchedule -> bool {
    (s: LegacySchedule) => s.field == field && s.date == date && s.start == start && s.end == end
  }

  /** The number of practices already placed on the field and date with exactly this
      window: the length of the query's result. */
  function SameWindow(schedules: seq<LegacySchedule>, field: int, date: string, start: int, end: int): (n: nat)
    ensures n <= |schedules|
    ensures n == |Filter(schedules, InWindow(field, date, start, end))|
    decreases |schedules|
  {
    if schedules == [] then 0
    else
      var s := schedules[|schedules| - 1];
      SameWindow(schedules[..|schedules| - 1], field, date, start, end)
      + (if s.field == field && s.date == date && s.start == start && s.end == end then 1 else 0)
  }

  /** `String.fromCharCode(65 + count)`: the code unit, modulo 2^16. */
  function PortionName(count: nat): (c: int)
    ensures count < 26 ==> 'A' as int <= c <= 'Z' as int && c - 'A' as int == count
    ensures 0 <= c < 0x1_0000
  {
    (65 + count) % 0x1_0000
  }

  /** Some ledger entry of a slot document of the field and date contains the practice. */
  predicate SlotAvailable(docs: seq<SlotDoc>, field: int, date: string, start: int, end: int) {
    exists d, e | d in docs && e in d.entries ::
      d.field == field && d.date == date && e.start <= start && e.end >= end
  }

  /** The scan of `schedulePractice` over the slot documents and their entries; the
      `break` leaves only the inner loop. */
  method ScanSlots(docs: seq<SlotDoc>, field: int, date: string, start: int, end: int) returns (available: bool)
    ensures available == SlotAvailable(docs, field, date, start, end)
  {
    available := false;
    for i := 0 to |docs|
      invariant available <==> exists d, e | d in docs[..i] && e in d.entries ::
        d.field == field && d.date == date && e.start <= start && e.end >= end
    {
      var doc := docs[i];
      if doc.field == field && doc.date == date {
        var j := 0;
        while j < |doc.entries|
          invariant 0 <= j <= |doc.entries|
          invariant forall k | 0 <= k < j :: !(doc.entries[k].start <= start && doc.entries[k].end >= end)
        {
          if doc.entries[j].start <= start && doc.entries[j].end >= end {
            available := true;
            break;
          }
          j := j + 1;
        }
        assert j < |doc.entries| ==> doc.entries[j] in doc.entries;
      }
      assert docs[..i + 1] == docs[..i] + [doc];
    }
    assert docs[..|docs|] == docs;
  }

  /** `Slots.findByIdAndUpdate(id, { $set: { reservation_time_portion } })`. */
  function SetEntries(docs: seq<SlotDoc>, id: int, entries: seq<Slot>): (r: seq<SlotDoc>)
    ensures |r| == |docs|
    ensures forall k | 0 <= k < |docs| ::
      r[k] == (if docs[k].id == id then docs[k].(entries := entries) else docs[k])
  {
    seq(|docs|, k requires 0 <= k < |docs| => if docs[k].id == id then docs[k].(entries := entries) else docs[k])
  }

  /** The two collections this allocator writes. */
  datatype Books = Books(schedules: seq<LegacySchedule>, slots: seq<SlotDoc>)

  /** The practice `schedulePractice` would record, with its coach. */
  function Entry(team: Team, portion: Portion, r: Reservation, coach: LegacyCoach, schedules: seq<LegacySchedule>): LegacySchedule {
    var start := StartOf(team, r);
    var end := EndOf(team, r);
    LegacySchedule(team.id, team.club, coach.id, r.field.id, portion, r.date, start, end,
      team.practiceLength, PortionName(SameWindow(schedules, r.field.id, r.date, start, end)))
  }

  /** `schedulePractice`: with a ledger entry containing the practice, a practice that ends
      by the reservation's end and an available coach of the club, the practice is saved and
      cut out of the slot's ledger, with `subtractPortions` as written. When the ledger
      passed in is empty `updateReservationArray` iterates over the reservation document
      instead, which throws after the save: the practice is kept and no ledger changes. */
  function Practice(b: Books, team: Team, portion: Portion, r: Reservation, entries: seq<Slot>, slotId: int, coaches: seq<LegacyCoach>): Books {
    var start := StartOf(team, r);
    var end := EndOf(team, r);
    if !SlotAvailable(b.slots, r.field.id, r.date, start, end) then b
    else if team.practiceLength > r.end - start then b
    else match FirstAvailable(ClubCoaches(coaches, team.club), b.schedules, r.date, start, end)
      case None => b
      case Some(c) =>
        Record(b, Entry(team, portion, r, c, b.schedules), entries, slotId, start, end, portion)
  }

  /** The writes of a placed practice: the schedule is appended, then the ledger passed in,
      with the practice cut out, replaces the slot document's. */
  function Record(b: Books, entry: LegacySchedule, entries: seq<Slot>, slotId: int, start: int, end: int, portion: Portion): Books {
    var saved := b.schedules + [entry];
    if entries == [] then Books(saved, b.slots)
    else Books(saved, SetEntries(b.slots, slotId, Updated(entries, start, end, portion, SubtractAsWritten)))
  }

  /** A practice is recorded exactly when a ledger entry contains it, it ends by the
      reservation's end and a coach of the club is available; then it is the one new
      record, it starts no earlier than the reservation and ends no later, it has the
      team's length, its coach is an active coach of the club with nothing clashing that
      day, and its name counts the practices already in that window. Otherwise nothing
      changes. */
  lemma PracticeSpec(b: Books, team: Team, portion: Portion, r: Reservation, entries: seq<Slot>, slotId: int, coaches: seq<LegacyCoach>)
    requires r.start <= r.end
    ensures var start := StartOf(team, r);
      var end := EndOf(team, r);
      var candidates := ClubCoaches(coaches, team.club);
      var b' := Practice(b, team, portion, r, entries, slotId, coaches);
      && (|b'.schedules| == |b.schedules| + 1 <==>
            SlotAvailable(b.slots, r.field.id, r.date, start, end)
            && team.practiceLength <= r.end - start
            && exists c | c in candidates :: CheckCoachAvailability(c, b.schedules, r.date, start, end))
      && (|b'.schedules| != |b.schedules| + 1 ==> b' == b)
      && (|b'.schedules| == |b.schedules| + 1 ==>
            var s := b'.schedules[|b.schedules|];
            && b'.schedules[..|b.schedules|] == b.schedules
            && r.start <= s.start && s.end <= r.end && s.end - s.start == team.practiceLength
            && s.team == team.id && s.club == team.club && s.field == r.field.id && s.date == r.date
            && s.fieldPortion == portion
            && (exists c | c in coaches :: c.id == s.coach && c.club == team.club && c.active
                  && CheckCoachAvailability(c, b.schedules, r.date, start, end))
            && s.portionName == PortionName(SameWindow(b.schedules, r.field.id, r.date, start, end)))
  {
    var start := StartOf(team, r);
    var end := EndOf(team, r);
    var candidates := ClubCoaches(coaches, team.club);
    FirstAvailableSpec(candidates, b.schedules, r.date, start, end);
    var found := FirstAvailable(candidates, b.schedules, r.date, start, end);
    if found.Some? {
      assert found.value in candidates;
    }
    var b' := Practice(b, team, portion, r, entries, slotId, coaches);
    if |b'.schedules| == |b.schedules| + 1 {
      assert b'.schedules[..|b.schedules|] == b.schedules;
    }
  }

  /** A recorded practice is one more practice in its window, so the next practice
      placed in the same window is named with the next letter. */
  lemma {:induction false} PracticeAdvancesName(b: Books, team: Team, portion: Portion, r: Reservation, entries: seq<Slot>,
                                                slotId: int, coaches: seq<LegacyCoach>)
    requires r.start <= r.end
    ensures var start := StartOf(team, r);
      var end := EndOf(team, r);
      var b' := Practice(b, team, portion, r, entries, slotId, coaches);
      |b'.schedules| == |b.schedules| + 1 ==>
        && SameWindow(b'.schedules, r.field.id, r.date, start, end) == SameWindow(b.schedules, r.field.id, r.date, start, end) + 1
        && b'.schedules[|b.schedules|].portionName == PortionName(SameWindow(b'.schedules, r.field.id, r.date, start, end) - 1)
  {
    var start := StartOf(team, r);
    var end := EndOf(team, r);
    if SlotAvailable(b.slots, r.field.id, r.date, start, end) && team.practiceLength <= r.end - start {
      match FirstAvailable(ClubCoaches(coaches, team.club), b.schedules, r.date, start, end)
      case None =>
      case Some(c) =>
        var e := Entry(team, portion, r, c, b.schedules);
        SameWindowSnoc(b.schedules, e, r.field.id, r.date, start, end);
    }
  }

  lemma SameWindowSnoc(schedules: seq<LegacySchedule>, s: LegacySchedule, field: int, date: string, start: int, end: int)
    ensures SameWindow(schedules + [s], field, date, start, end) ==
      SameWindow(schedules, field, date, start, end) + (if InWindow(field, date, start, end)(s) then 1 else 0)
  {
    assert (schedules + [s])[..|schedules|] == schedules;
  }

  /** When the practice is recorded and a ledger was passed in, the slot documents with the
      given id carry that ledger with the practice cut out, and every other document is
      unchanged. */
  lemma PracticeLedger(b: Books, team: Team, portion: Portion, r: Reservation, entries: seq<Slot>, slotId: int, coaches: seq<LegacyCoach>)
    ensures var start := StartOf(team, r);
      var end := EndOf(team, r);
      var b' := Practice(b, team, portion, r, entries, slotId, coaches);
      && |b'.slots| == |b.slots|
      && forall k | 0 <= k < |b.slots| ::
           b'.slots[k] == (if |b'.schedules| != |b.schedules| && entries != [] && b.slots[k].id == slotId
                           then b.slots[k].(entries := Updated(entries, start, end, portion, SubtractAsWritten))
                           else b.slots[k])
  {
  }

  /** The two collections, held in memory. */
  class Allocator {
    var schedules: seq<LegacySchedule>
    var slots: seq<SlotDoc>

    constructor(schedules0: seq<LegacySchedule>, slots0: seq<SlotDoc>)
      ensures schedules == schedules0 && slots == slots0
    {
      schedules := schedules0;
      slots := slots0;
    }

    /** `schedulePractice`, step by step against the collections. */
    method SchedulePractice(team: Team, portion: Portion, r: Reservation, entries: seq<Slot>, slotId: int, coaches: seq<LegacyCoach>)
      modifies this
      ensures Books(schedules, slots) == Practice(Books(old(schedules), old(slots)), team, portion, r, entries, slotId, coaches)
    {
      var start := StartOf(team, r);
      var end := EndOf(team, r);
      var name := PortionName(SameWindow(schedules, r.field.id, r.date, start, end));
      var available := ScanSlots(slots, r.field.id, r.date, start, end);
      if available {
        if team.practiceLength <= r.end - start {
          var coach := FindCompatibleCoach(ClubCoaches(coaches, team.club), schedules, r.date, start, end);
          if coach.Some? {
            var c := coach.value;
            assert LegacySchedule(team.id, team.club, c.id, r.field.id, portion, r.date,
              start, end, team.practiceLength, name) == Entry(team, portion, r, c, schedules);
            schedules := schedules + [LegacySchedule(team.id, team.club, c.id, r.field.id, portion, r.date,
              start, end, team.practiceLength, name)];
            if entries != [] {
              var updated := UpdateReservationArray(entries, start, end, portion, SubtractAsWritten);
              slots := SetEntries(slots, slotId, updated);
            }
          }
        }
      }
    }
  }
}
