/** The records the current allocator reads and writes, with their fields as the code
    uses them. Times of day are minutes since midnight (the "HH:MM" strings of the
    database, read with `convertTimeToMinutes`); calendar dates that serve as keys stay
    the "MM/DD/YYYY" strings they are stored as. */
module Records {
  import opened Common

  /** A field as populated into a reservation: its region and how many teams it takes
      at once (`teams_per_field`, which may be empty). */
  datatype Field = Field(id: int, region: Option<string>, teamsPerField: Option<int>)

  /** A booked block of field time on one date. `date` is the stored "MM/DD/YYYY"
      string and `day` a day number carried beside it, which the model uses where the
      program parses the string; `Chunker.Dated` states when the string is the
      MM/DD/YYYY rendering of that day. */
  datatype Reservation = Reservation(
    id: int, club: int, field: Field, date: string, day: int, start: int, end: int)

  /** A team and its practice preferences. `travelStart`/`travelEnd` are the travel dates
      as day numbers, `None` when absent (an Invalid Date). */
  datatype Team = Team(
    id: int, club: int, coach: int,
    practiceLength: int, minimumLength: int,
    preferredStart: int, preferredEnd: int,
    preferredDays: seq<string>, region: string,
    travelStart: Option<int>, travelEnd: Option<int>,
    preferredFieldSize: int)

  /** A coach and the window of the day in which they coach. */
  datatype Coach = Coach(id: int, windowStart: int, windowEnd: int)

  /** A practice placed on a field on a date. */
  datatype Schedule = Schedule(
    team: int, club: int, coach: int, field: int, fieldPortion: int, date: string,
    idealStart: int, start: int, end: int, length: int, portion: int)

  /** The upsert key of a schedule: one practice per team, club and date. */
  datatype ScheduleKey = ScheduleKey(team: int, club: int, date: string)

  function KeyOf(s: Schedule): ScheduleKey {
    ScheduleKey(s.team, s.club, s.date)
  }

  /** The checks an evaluation may skip. */
  datatype SkipFlags = SkipFlags(
    skipTimingCheck: bool, skipSlotAvailability: bool, skipRegion: bool, skipPreferredDays: bool)

  const NoSkips := SkipFlags(false, false, false, false)

  /** Reservations with the same date string are adjacent in the chunk. */
  predicate Contiguous(chunk: seq<Reservation>) {
    forall i, j, k | 0 <= i < j < k < |chunk| && chunk[i].date == chunk[k].date :: chunk[j].date == chunk[i].date
  }

  /** A schedule's times are an interval of positive length. */
  predicate ProperTimes(s: Schedule) {
    0 <= s.start < s.end
  }
}
