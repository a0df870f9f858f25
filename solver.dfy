/** `checkAndAssignTimes`, the recursive search for a practice window inside one
    reservation: it looks up the schedules that overlap the candidate window on the same
    field and date, moves past a schedule of the same coach while the field has room, or
    past any overlapping schedule when the field is full, and otherwise accepts the
    candidate together with the number of overlapping schedules. */
module Solver {
  import opened Common
  import opened Records
  import opened Checks

  /** What one search sees: the persisted schedules (the `Schedule` collection), the
      schedules staged so far for the team, the reservation's club, field and date, the
      team's coach, the reservation's end, the team's ideal and minimum lengths and the
      field's capacity. */
  datatype Setting = Setting(
    persisted: seq<Schedule>, staged: seq<Schedule>,
    club: int, field: int, date: string, coach: int,
    reservationEnd: int, length: int, minimumLength: int, capacity: int)

  /** Practices have positive lengths, so every schedule written so far is an interval of
      positive length; without this the search could jump backwards and never stop. */
  predicate ValidSetting(st: Setting) {
    && st.length > 0 && st.minimumLength > 0
    && (forall s | s in st.persisted :: ProperTimes(s))
    && (forall s | s in st.staged :: ProperTimes(s))
  }

  /** The window the search settles on, with the number of overlapping schedules it saw. */
  datatype Window = Window(start: int, end: int, count: int)

  /** The schedules on the club's field on the date that overlap [cs, ce). */
  function Matches(club: int, field: int, date: string, cs: int, ce: int): Schedule -> bool {
    (s: Schedule) => s.club == club && s.field == field && s.date == date && Overlaps3(s.start, s.end, cs, ce)
  }

  /** `countMatchingSchedules`: the staged schedules that overlap the candidate. */
  function CountMatchingSchedules(schedules: seq<Schedule>, club: int, field: int, date: string, cs: int, ce: int): seq<Schedule> {
    Filter(schedules, Matches(club, field, date, cs, ce))
  }

  /** For schedules of positive length, a schedule is counted exactly when it is on the
      same club, field and date and its interval intersects the candidate's. */
  lemma CountMatchingSchedulesIff(schedules: seq<Schedule>, club: int, field: int, date: string, cs: int, ce: int, s: Schedule)
    requires s in schedules && ProperTimes(s)
    ensures s in CountMatchingSchedules(schedules, club, field, date, cs, ce) <==>
      s.club == club && s.field == field && s.date == date && s.start < ce && cs < s.end
  {
    Overlaps3Iff(s.start, s.end, cs, ce);
  }

  /** `totalExistingSchedules`: the query's result followed by the staged matches. */
  function Overlapping(st: Setting, cs: int, ce: int): seq<Schedule> {
    Filter(st.persisted, Matches(st.club, st.field, st.date, cs, ce)) +
    CountMatchingSchedules(st.staged, st.club, st.field, st.date, cs, ce)
  }

  function OfCoach(coach: int): Schedule -> bool {
    (s: Schedule) => s.coach == coach
  }

  /** Every schedule overlapping the candidate ends after the candidate starts. */
  lemma OverlappingEndsLater(st: Setting, cs: int, ce: int)
    requires ValidSetting(st)
    ensures forall s | s in Overlapping(st, cs, ce) :: cs < s.end && 0 < s.end
  {
    forall s | s in Overlapping(st, cs, ce) ensures cs < s.end && 0 < s.end {
      if s in Filter(st.persisted, Matches(st.club, st.field, st.date, cs, ce)) {
        assert ProperTimes(s);
      } else {
        assert ProperTimes(s);
      }
    }
  }

  /** The latest end among the schedules, starting from 0 as the loop does. */
  function LatestEnd(ss: seq<Schedule>): (latest: int)
    ensures latest >= 0
    ensures forall s | s in ss :: s.end <= latest
    ensures latest == 0 || exists s | s in ss :: s.end == latest
    decreases |ss|
  {
    if ss == [] then 0
    else
      var m := LatestEnd(ss[..|ss| - 1]);
      if ss[|ss| - 1].end > m then ss[|ss| - 1].end else m
  }

  /** The first overlapping schedule after whose end the ideal length, or failing that the
      minimum length, still fits before the reservation's end. */
  function FirstFit(items: seq<Schedule>, st: Setting): (r: Option<(int, int)>)
    ensures r.Some? ==> exists s | s in items :: s.end == r.value.0
    ensures r.Some? ==> r.value.1 <= st.reservationEnd
    ensures r.Some? ==> (r.value.1 == r.value.0 + st.length ||
      (r.value.1 == r.value.0 + st.minimumLength && r.value.0 + st.length > st.reservationEnd))
    ensures r.None? ==> forall s | s in items :: s.end + st.minimumLength > st.reservationEnd
    decreases |items|
  {
    if items == [] then None
    else
      var start := items[0].end;
      if start + st.length <= st.reservationEnd then Some((start, start + st.length))
      else if start + st.minimumLength <= st.reservationEnd then Some((start, start + st.minimumLength))
      else
        var r := FirstFit(items[1..], st);
        assert forall s | s in items[1..] :: s in items;
        r
  }

  /** One call of the search: settle on a window, give up, or retry from a later start. */
  datatype Step = Done(w: Window) | Fail | Retry(start: int, end: int)

  /** What one call of `checkAndAssignTimes` does before it recurses: every retry starts
      strictly later and ends by the reservation's end. */
  function SolveStep(st: Setting, cs: int, ce: int): (r: Step)
    requires ValidSetting(st)
    ensures r.Retry? ==> cs < r.start < r.end <= st.reservationEnd
  {
    var overlapping := Overlapping(st, cs, ce);
    var same := Filter(overlapping, OfCoach(st.coach));
    OverlappingEndsLater(st, cs, ce);
    if |overlapping| < st.capacity && |same| > 0 then
      var latest := LatestEnd(same);
      assert same[0] in same;
      if latest + st.length <= st.reservationEnd then Retry(latest, latest + st.length)
      else if latest + st.minimumLength <= st.reservationEnd then Retry(latest, latest + st.minimumLength)
      else Done(Window(latest, latest + st.minimumLength, |overlapping|))
    else if |overlapping| >= st.capacity then
      match FirstFit(overlapping, st)
      case Some((start, end)) => Retry(start, end)
      case None =>
        if overlapping != [] || ce > st.reservationEnd then Fail
        else Done(Window(cs, ce, |overlapping|))
    else Done(Window(cs, ce, |overlapping|))
  }

  /** One call retries from the end of a schedule overlapping the candidate, with the
      ideal length or, where that does not fit, the minimum length; gives up only when the
      field is full and no overlapping schedule leaves room after it; and otherwise settles
      on a window whose count is the number of overlapping schedules, which is the
      candidate itself, with room on the field and no schedule of the coach overlapping,
      whenever it ends by the reservation's end. */
  lemma SolveStepSound(st: Setting, cs: int, ce: int)
    requires ValidSetting(st)
    ensures var r := SolveStep(st, cs, ce);
      && (r.Retry? ==> exists s | s in Overlapping(st, cs, ce) :: s.end == r.start)
      && (r.Retry? ==> (r.end == r.start + st.length ||
            (r.end == r.start + st.minimumLength && r.start + st.length > st.reservationEnd)))
      && (r.Fail? ==> |Overlapping(st, cs, ce)| >= st.capacity)
      && (r.Fail? ==> forall s | s in Overlapping(st, cs, ce) :: s.end + st.minimumLength > st.reservationEnd)
      && (r.Done? ==> r.w.count == |Overlapping(st, cs, ce)| && cs <= r.w.start)
      && (r.Done? && r.w.end <= st.reservationEnd ==> r.w.start == cs && r.w.end == ce)
      && (r.Done? && r.w.end <= st.reservationEnd ==>
            (r.w.count < st.capacity || r.w.count == 0) &&
            forall s | s in Overlapping(st, cs, ce) :: s.coach != st.coach)
  {
    var overlapping := Overlapping(st, cs, ce);
    var same := Filter(overlapping, OfCoach(st.coach));
    if |overlapping| < st.capacity && |same| > 0 {
      assert same[0] in same;
    } else if |overlapping| < st.capacity {
      assert forall s | s in overlapping :: s.coach != st.coach;
    }
  }

  /** `checkAndAssignTimes` as written. Every retry starts strictly later and ends by the
      reservation's end, so the recursion stops. */
  function SolveAsWritten(st: Setting, cs: int, ce: int): Option<Window>
    requires ValidSetting(st)
    decreases st.reservationEnd - cs
  {
    match SolveStep(st, cs, ce)
    case Done(w) => Some(w)
    case Fail => None
    case Retry(start, end) => SolveAsWritten(st, start, end)
  }

  /** The search with the reservation's end enforced on the window it returns. */
  function Solve(st: Setting, cs: int, ce: int): Option<Window>
    requires ValidSetting(st)
  {
    match SolveAsWritten(st, cs, ce)
    case Some(w) => if w.end <= st.reservationEnd then Some(w) else None
    case None => None
  }

  /** What the search promises of a window: it lies between the first candidate's start
      and the reservation's end; it is the first candidate, or it has the ideal length, or
      the minimum length where the ideal one would not fit; its count is the number of
      schedules overlapping it; the field has room for it (or nothing overlaps it); and no
      schedule of the same coach overlaps it. */
  predicate Sound(st: Setting, cs: int, ce: int, w: Window) {
    && cs <= w.start && w.end <= st.reservationEnd
    && ((w.start == cs && w.end == ce) || w.end == w.start + st.length ||
        (w.end == w.start + st.minimumLength && w.start + st.length > st.reservationEnd))
    && w.count == |Overlapping(st, w.start, w.end)|
    && (w.count < st.capacity || w.count == 0)
    && (forall s | s in Overlapping(st, w.start, w.end) :: s.coach != st.coach)
  }

  /** Every window the search returns is sound. */
  lemma {:induction false} SolveSound(st: Setting, cs: int, ce: int, w: Window)
    requires ValidSetting(st)
    requires Solve(st, cs, ce) == Some(w)
    ensures Sound(st, cs, ce, w)
    decreases st.reservationEnd - cs
  {
    SolveStepSound(st, cs, ce);
    match SolveStep(st, cs, ce)
    case Done(_) =>
    case Fail =>
    case Retry(start, end) =>
      SolveSound(st, start, end, w);
  }

  /** What the search as written promises of a window: it starts no earlier than the first
      candidate and has positive length; when it ends by the reservation's end it is sound;
      and when it runs past that end it is the first candidate itself or a window of the
      minimum length after a schedule of the same coach. */
  lemma {:induction false} SolveAsWrittenShape(st: Setting, cs: int, ce: int, w: Window)
    requires ValidSetting(st) && cs < ce
    requires SolveAsWritten(st, cs, ce) == Some(w)
    ensures cs <= w.start < w.end && 0 <= w.count
    ensures w.end <= st.reservationEnd ==> Sound(st, cs, ce, w)
    ensures w.end > st.reservationEnd ==>
      (w.start == cs && w.end == ce) || w.end == w.start + st.minimumLength
    decreases st.reservationEnd - cs
  {
    if w.end <= st.reservationEnd {
      assert Solve(st, cs, ce) == Some(w);
      SolveSound(st, cs, ce, w);
    }
    match SolveStep(st, cs, ce)
    case Done(_) =>
      SolveStepSound(st, cs, ce);
    case Fail =>
    case Retry(start, end) =>
      SolveAsWrittenShape(st, start, end, w);
  }

  /** The latest end among the same coach's schedules, by the loop of `checkAndAssignTimes`. */
  method LatestEndOf(same: seq<Schedule>) returns (latest: int)
    ensures latest == LatestEnd(same)
  {
    latest := 0;
    var i := 0;
    while i < |same|
      invariant 0 <= i <= |same|
      invariant latest == LatestEnd(same[..i])
    {
      assert same[..i + 1][..i] == same[..i];
      if same[i].end > latest {
        latest := same[i].end;
      }
      i := i + 1;
    }
    assert same[..|same|] == same;
  }

  /** The loop over the overlapping schedules when the field is full: the first schedule
      after whose end a practice fits, and otherwise the end the loop leaves behind (the
      candidate's own end when there is nothing to loop over). */
  method FirstFitOf(total: seq<Schedule>, st: Setting, ce: int) returns (fit: Option<(int, int)>, calculatedEnd: int)
    ensures fit == FirstFit(total, st)
    ensures fit.None? && total == [] ==> calculatedEnd == ce
    ensures fit.None? && total != [] ==> calculatedEnd > st.reservationEnd
  {
    calculatedEnd := ce;
    var i := 0;
    while i < |total|
      invariant 0 <= i <= |total|
      invariant FirstFit(total, st) == FirstFit(total[i..], st)
      invariant i == 0 ==> calculatedEnd == ce
      invariant i > 0 ==> calculatedEnd > st.reservationEnd
    {
      var item := total[i];
      assert total[i..][1..] == total[i + 1..];
      var calculatedStart := item.end;
      calculatedEnd := calculatedStart + st.length;
      if calculatedEnd <= st.reservationEnd {
        return Some((calculatedStart, calculatedEnd)), calculatedEnd;
      } else {
        calculatedEnd := calculatedStart + st.minimumLength;
        if calculatedEnd <= st.reservationEnd {
          return Some((calculatedStart, calculatedEnd)), calculatedEnd;
        }
      }
      i := i + 1;
    }
    fit := None;
  }

  /** `checkAndAssignTimes`, with its loop over the overlapping schedules when the field is
      full. */
  method CheckAndAssignTimes(st: Setting, cs: int, ce: int) returns (r: Option<Window>)
    requires ValidSetting(st)
    ensures r == SolveAsWritten(st, cs, ce)
    decreases st.reservationEnd - cs
  {
    var existing := Filter(st.persisted, Matches(st.club, st.field, st.date, cs, ce));
    var matching := CountMatchingSchedules(st.staged, st.club, st.field, st.date, cs, ce);
    var total := existing + matching;
    assert total == Overlapping(st, cs, ce);
    var sameCoach := Filter(total, OfCoach(st.coach));
    var calculatedStart, calculatedEnd := cs, ce;
    if |total| < st.capacity && |sameCoach| > 0 {
      var latest := LatestEndOf(sameCoach);
      calculatedStart := latest;
      calculatedEnd := calculatedStart + st.length;
      if calculatedEnd <= st.reservationEnd {
        assert SolveStep(st, cs, ce) == Retry(calculatedStart, calculatedEnd);
        r := CheckAndAssignTimes(st, calculatedStart, calculatedEnd);
        return;
      } else {
        calculatedEnd := calculatedStart + st.minimumLength;
        if calculatedEnd <= st.reservationEnd {
          assert SolveStep(st, cs, ce) == Retry(calculatedStart, calculatedEnd);
          r := CheckAndAssignTimes(st, calculatedStart, calculatedEnd);
          return;
        }
      }
    }
    if |total| >= st.capacity {
      var fit, lastEnd := FirstFitOf(total, st, calculatedEnd);
      if fit.Some? {
        assert SolveStep(st, cs, ce) == Retry(fit.value.0, fit.value.1);
        r := CheckAndAssignTimes(st, fit.value.0, fit.value.1);
        return;
      }
      calculatedEnd := lastEnd;
      if calculatedEnd > st.reservationEnd {
        assert SolveStep(st, cs, ce) == Fail;
        return None;
      }
    }
    assert SolveStep(st, cs, ce) == Done(Window(calculatedStart, calculatedEnd, |total|));
    r := Some(Window(calculatedStart, calculatedEnd, |total|));
  }

  /** The search with the reservation's end enforced: a window that would run past the
      reservation is rejected like a failed search. */
  method AssignTimes(st: Setting, cs: int, ce: int) returns (r: Option<Window>)
    requires ValidSetting(st)
    ensures r == Solve(st, cs, ce)
  {
    r := CheckAndAssignTimes(st, cs, ce);
    if r.Some? && r.value.end > st.reservationEnd {
      r := None;
    }
  }

  /** A field for two teams with a reservation from 09:00 to 11:00, a 90-minute practice
      with a 60-minute minimum, and another team of the same coach booked from 09:00 to
      10:30. */
  function OverrunSetting(): Setting {
    var other := Schedule(5, 1, 7, 2, 1, "01/06/2025", 540, 540, 630, 90, 1);
    Setting([other], [], 1, 2, "01/06/2025", 7, 660, 90, 60, 2)
  }

  /** The search as written moves past the coach's other practice to 10:30 and, finding
      neither length room before 11:00, falls through and returns 10:30 to 11:30 anyway,
      half an hour past the reservation; with the end enforced the search fails. */
  lemma SolverOverrun()
    ensures ValidSetting(OverrunSetting())
    ensures SolveAsWritten(OverrunSetting(), 540, 630) == Some(Window(630, 690, 1))
    ensures 690 > OverrunSetting().reservationEnd
    ensures Solve(OverrunSetting(), 540, 630) == None
  {
    var st := OverrunSetting();
    var other := st.persisted[0];
    assert Filter(st.persisted, Matches(st.club, st.field, st.date, 540, 630)) == [other] by {
      assert st.persisted == [] + [other];
    }
    assert CountMatchingSchedules(st.staged, st.club, st.field, st.date, 540, 630) == [];
    assert Overlapping(st, 540, 630) == [other];
    assert Filter([other], OfCoach(st.coach)) == [other] by {
      assert [other][..0] == [];
    }
    assert LatestEnd([other]) == 630 by {
      assert [other][..0] == [];
    }
    assert SolveStep(st, 540, 630) == Done(Window(630, 690, 1));
  }
}
