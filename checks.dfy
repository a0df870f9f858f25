/** The eligibility checks `evaluateAndCountSchedules` applies to a candidate practice:
    region, preferred day, preferred time, travel dates and the coach's availability,
    together with the three-way overlap test the allocator uses throughout. */
module Checks {
  import opened Common
  import opened Text
  import opened Times
  import opened Records

  /** The overlap test written out in the queries and filters: the schedule straddles the
      candidate's start, or starts inside it, or ends inside it. */
  predicate Overlaps3(s: int, e: int, cs: int, ce: int) {
    (s < ce && e > cs) || (s >= cs && s < ce) || (e > cs && e <= ce)
  }

  /** For a schedule of positive length the three disjuncts say no more than the first:
      the two half-open intervals intersect. */
  lemma Overlaps3Iff(s: int, e: int, cs: int, ce: int)
    requires s < e
    ensures Overlaps3(s, e, cs, ce) <==> s < ce && cs < e
  {
  }

  /** The same test on "HH:MM" strings, as the database query and `countMatchingSchedules`
      evaluate it (`>=` is `!(<)`). */
  predicate OverlapText(s: string, e: string, cs: string, ce: string) {
    (StrLt(s, ce) && StrLt(cs, e)) || (!StrLt(s, cs) && StrLt(s, ce)) || (StrLt(cs, e) && StrLe(e, ce))
  }

  /** Comparing rendered times agrees with comparing minutes, so the overlap test may be
      evaluated on minutes for any times below 100 hours. */
  lemma OverlapTextAgrees(s: int, e: int, cs: int, ce: int)
    requires 0 <= s < 6000 && 0 <= e < 6000 && 0 <= cs < 6000 && 0 <= ce < 6000
    ensures OverlapText(MinutesToTime(s), MinutesToTime(e), MinutesToTime(cs), MinutesToTime(ce)) <==>
            Overlaps3(s, e, cs, ce)
  {
    TimeStringOrder(s, ce);
    TimeStringOrder(cs, e);
    TimeStringOrder(s, cs);
    TimeStringOrderLe(e, ce);
  }

  /** `checkRegion`: a missing field region reads as the empty string; both sides are
      lower-cased before they are compared. */
  function CheckRegion(fieldRegion: Option<string>, teamRegion: string, flags: SkipFlags): (ok: bool)
    ensures flags.skipRegion ==> ok
    ensures Lower(teamRegion) == "all" ==> ok
    ensures Lower(teamRegion) == Lower(fieldRegion.GetOr("")) ==> ok
  {
    if flags.skipRegion then true
    else
      var fr := Lower(fieldRegion.GetOr(""));
      var tr := Lower(teamRegion);
      tr == "all" || fr == "all" || tr == fr
  }

  /** Without the skip flag, regions match exactly when either is "all" in any case or the
      two are the same up to case; in particular the test is symmetric. */
  lemma CheckRegionIff(fieldRegion: string, teamRegion: string)
    ensures CheckRegion(Some(fieldRegion), teamRegion, NoSkips) <==>
      Lower(fieldRegion) == "all" || Lower(teamRegion) == "all" || Lower(fieldRegion) == Lower(teamRegion)
    ensures CheckRegion(Some(fieldRegion), teamRegion, NoSkips) ==
      CheckRegion(Some(teamRegion), fieldRegion, NoSkips)
  {
  }

  /** Lower-casing either region beforehand changes nothing. */
  lemma CheckRegionIgnoresCase(fieldRegion: string, teamRegion: string, flags: SkipFlags)
    ensures CheckRegion(Some(Lower(fieldRegion)), teamRegion, flags) == CheckRegion(Some(fieldRegion), teamRegion, flags)
    ensures CheckRegion(Some(fieldRegion), Lower(teamRegion), flags) == CheckRegion(Some(fieldRegion), teamRegion, flags)
  {
    LowerIdempotent(fieldRegion);
    LowerIdempotent(teamRegion);
  }

  /** `checkTeamsPrefferedDay`: the weekday's name is one of the team's preferred days. */
  function CheckTeamsPrefferedDay(dayName: string, team: Team, flags: SkipFlags): (ok: bool)
    ensures flags.skipPreferredDays ==> ok
    ensures ok && !flags.skipPreferredDays ==> exists i | 0 <= i < |team.preferredDays| :: team.preferredDays[i] == dayName
    ensures !ok ==> forall i | 0 <= i < |team.preferredDays| :: team.preferredDays[i] != dayName
  {
    flags.skipPreferredDays || dayName in team.preferredDays
  }

  /** `checkTeamPrefferedTime`: the preferred start, and the preferred start plus the
      minimum length, are no later than the reservation's end. */
  function CheckTeamPrefferedTime(reservationEnd: int, team: Team, flags: SkipFlags): (ok: bool)
    ensures flags.skipTimingCheck ==> ok
    ensures !flags.skipTimingCheck && team.minimumLength >= 0 ==>
      (ok <==> team.preferredStart + team.minimumLength <= reservationEnd)
  {
    if flags.skipTimingCheck then true
    else
      var adjustedEnd := team.preferredStart + team.minimumLength;
      team.preferredStart <= reservationEnd && adjustedEnd <= reservationEnd
  }

  /** `checkTeamTravelling`: the date lies in the closed travel interval. An absent bound
      (`None`) stands for an undefined field: `new Date(undefined)` is an Invalid Date,
      against which every comparison is false. */
  function CheckTeamTravelling(team: Team, day: int): (travelling: bool)
    ensures travelling ==> team.travelStart.Some? && team.travelEnd.Some?
    ensures team.travelStart.Some? && team.travelEnd.Some? ==>
      (travelling <==> team.travelStart.value <= day <= team.travelEnd.value)
  {
    match (team.travelStart, team.travelEnd)
    case (Some(start), Some(end)) => day >= start && day <= end
    case _ => false
  }

  /** `coaches.find(coach => coach._id.equals(team.coach_id))`. */
  function FindCoach(coaches: seq<Coach>, id: int): (r: Option<Coach>)
    ensures r.Some? ==> r.value in coaches && r.value.id == id
    ensures r.None? ==> forall c | c in coaches :: c.id != id
    decreases |coaches|
  {
    if coaches == [] then None
    else if coaches[0].id == id then Some(coaches[0])
    else FindCoach(coaches[1..], id)
  }

  /** The schedules of the coach's other teams on the date. */
  function OtherTeam(coach: int, date: string, team: int): Schedule -> bool {
    (s: Schedule) => s.coach == coach && s.date == date && s.team != team
  }

  /** The persisted schedules the query returns, followed by the staged ones the filter
      keeps. */
  function OtherTeamSchedules(persisted: seq<Schedule>, staged: seq<Schedule>, coach: int, date: string, team: int): seq<Schedule> {
    Filter(persisted, OtherTeam(coach, date, team)) + Filter(staged, OtherTeam(coach, date, team))
  }

  /** A schedule on the candidate's field that does not overlap it, reading the schedule's
      start from its ideal start time. */
  predicate FreeOnField(s: Schedule, field: int, cs: int, ce: int) {
    s.field == field && !Overlaps3(s.idealStart, s.end, cs, ce)
  }

  /** What `findCompatibleCoach` decides for the candidate [cs, ce) on `field` and `date`:
      the coach must exist and their window must contain the candidate; then the answer is
      yes when the coach has no other team's schedule that date, and otherwise yes exactly
      when one of those schedules is on the same field and does not overlap. */
  predicate CoachCompatible(team: Team, coaches: seq<Coach>, cs: int, ce: int, date: string, field: int,
                            persisted: seq<Schedule>, staged: seq<Schedule>)
  {
    match FindCoach(coaches, team.coach)
    case None => false
    case Some(coach) =>
      && coach.windowStart <= cs && coach.windowEnd >= ce
      && var others := OtherTeamSchedules(persisted, staged, coach.id, date, team.id);
         (others == [] || exists s | s in others :: FreeOnField(s, field, cs, ce))
  }

  /** `findCompatibleCoach`, with its early exit from the loop over the other schedules. */
  method FindCompatibleCoach(team: Team, coaches: seq<Coach>, cs: int, ce: int, date: string, field: int,
                             persisted: seq<Schedule>, staged: seq<Schedule>)
    returns (ok: bool)
    ensures ok == CoachCompatible(team, coaches, cs, ce, date, field, persisted, staged)
  {
    var found := FindCoach(coaches, team.coach);
    if found.None? {
      return false;
    }
    var coach := found.value;
    if !(coach.windowStart <= cs && coach.windowEnd >= ce) {
      return false;
    }
    var all := OtherTeamSchedules(persisted, staged, coach.id, date, team.id);
    if |all| == 0 {
      return true;
    }
    var allPass := false;
    var i := 0;
    while i < |all|
      invariant 0 <= i <= |all|
      invariant forall k | 0 <= k < i :: !FreeOnField(all[k], field, cs, ce)
    {
      var schedule := all[i];
      if field == schedule.field {
        var overlaps := Overlaps3(schedule.idealStart, schedule.end, cs, ce);
        if !overlaps {
          assert FreeOnField(schedule, field, cs, ce) && schedule in all;
          allPass := true;
          break;
        }
      }
      i := i + 1;
    }
    return allPass;
  }

  /** For schedules of positive length the coach check's condition on the other schedules
      is: one of them is on the same field and ends by the candidate's start or starts at
      or after its end. */
  lemma CoachCompatibleDisjoint(team: Team, coaches: seq<Coach>, cs: int, ce: int, date: string, field: int,
                                persisted: seq<Schedule>, staged: seq<Schedule>, coach: Coach)
    requires FindCoach(coaches, team.coach) == Some(coach)
    requires forall s | s in persisted + staged :: s.idealStart < s.end
    ensures var others := OtherTeamSchedules(persisted, staged, coach.id, date, team.id);
      CoachCompatible(team, coaches, cs, ce, date, field, persisted, staged) <==>
        coach.windowStart <= cs && coach.windowEnd >= ce &&
        (others == [] || exists s | s in others :: s.field == field && (s.end <= cs || ce <= s.idealStart))
  {
    var others := OtherTeamSchedules(persisted, staged, coach.id, date, team.id);
    forall s | s in others
      ensures FreeOnField(s, field, cs, ce) <==> s.field == field && (s.end <= cs || ce <= s.idealStart)
    {
      assert s in persisted + staged;
      Overlaps3Iff(s.idealStart, s.end, cs, ce);
    }
  }
}
