/** `evaluateAndCountSchedules`: one pass over a week's reservations for one team, staging
    at most one practice per date until the team has as many as it prefers days. */
module Evaluator {
  import opened Common
  import opened Dates
  import opened Records
  import opened Checks
  import opened Solver
  import opened Store

  /** Practices have positive ideal and minimum lengths. */
  predicate ValidTeam(team: Team) {
    team.practiceLength > 0 && team.minimumLength > 0
  }

  predicate AllProper(schedules: seq<Schedule>) {
    forall s | s in schedules :: ProperTimes(s)
  }

  /** Reservation times are minutes of the day, never negative. */
  predicate ValidChunk(chunk: seq<Reservation>) {
    forall r | r in chunk :: 0 <= r.start
  }

  /** What the loop carries: the number staged, the staged schedules, and the date of the
      last one staged (`data`). */
  datatype EvalState = EvalState(count: nat, staged: seq<Schedule>, last: Option<string>)

  const Start := EvalState(0, [], None)

  /** The first candidate start: the team's preferred start when the preferred window lies
      inside the reservation, otherwise the reservation's start. */
  function InitialStart(team: Team, r: Reservation): int {
    if team.preferredStart >= r.start && team.preferredEnd <= r.end then team.preferredStart else r.start
  }

  /** `teams_per_field`, or 8 when the field leaves it empty. */
  function Capacity(r: Reservation): int {
    r.field.teamsPerField.GetOr(8)
  }

  /** What the search sees for this team on this reservation. */
  function SettingFor(r: Reservation, team: Team, persisted: seq<Schedule>, staged: seq<Schedule>): Setting {
    Setting(persisted, staged, team.club, r.field.id, r.date, team.coach, r.end,
            team.practiceLength, team.minimumLength, Capacity(r))
  }

  /** The first candidate's end: the first candidate start plus the ideal length. */
  function InitialEnd(team: Team, r: Reservation): int {
    InitialStart(team, r) + team.practiceLength
  }

  /** The window `checkAndAssignTimes` finds for the team on the reservation, starting from
      the first candidate; as written, it may run past the reservation's end. */
  function Search(r: Reservation, team: Team, persisted: seq<Schedule>, staged: seq<Schedule>): Option<Window>
    requires ValidTeam(team) && AllProper(persisted) && AllProper(staged)
  {
    SolveAsWritten(SettingFor(r, team, persisted, staged), InitialStart(team, r), InitialEnd(team, r))
  }

  /** The search's setting meets its requirements. */
  lemma SettingValid(r: Reservation, team: Team, persisted: seq<Schedule>, staged: seq<Schedule>)
    requires ValidTeam(team) && AllProper(persisted) && AllProper(staged)
    ensures ValidSetting(SettingFor(r, team, persisted, staged))
  {
  }

  /** The window the search finds starts no earlier than the first candidate and has
      positive length. When it ends by the reservation's end it is sound: it is the first
      candidate, or has the ideal length, or the minimum length where the ideal one does
      not fit; its count is the number of schedules it overlaps, below the field's capacity
      unless nothing overlaps; and no schedule of the coach overlaps it. When it runs past
      the reservation's end it is the first candidate or has the minimum length. */
  lemma SearchSound(r: Reservation, team: Team, persisted: seq<Schedule>, staged: seq<Schedule>, w: Window)
    requires ValidTeam(team) && AllProper(persisted) && AllProper(staged)
    requires Search(r, team, persisted, staged) == Some(w)
    ensures r.start <= InitialStart(team, r) <= w.start < w.end && 0 <= w.count
    ensures w.end <= r.end ==>
      Sound(SettingFor(r, team, persisted, staged), InitialStart(team, r), InitialEnd(team, r), w)
    ensures w.end > r.end ==>
      (w.start == InitialStart(team, r) && w.end == InitialEnd(team, r)) || w.end == w.start + team.minimumLength
  {
    SettingValid(r, team, persisted, staged);
    SolveAsWrittenShape(SettingFor(r, team, persisted, staged), InitialStart(team, r), InitialEnd(team, r), w);
  }

  /** The five checks `evaluateAndCountSchedules` applies to the window the search returned. */
  predicate Eligible(r: Reservation, team: Team, flags: SkipFlags, w: Window, coaches: seq<Coach>,
                     persisted: seq<Schedule>, staged: seq<Schedule>)
  {
    && CheckRegion(r.field.region, team.region, flags)
    && CheckTeamsPrefferedDay(WeekdayName(r.day), team, flags)
    && CheckTeamPrefferedTime(r.end, team, flags)
    && CoachCompatible(team, coaches, w.start, w.end, r.date, r.field.id, persisted, staged)
    && !CheckTeamTravelling(team, r.day)
  }

  /** The schedule staged for the window: the ideal start is the start, the length is the
      team's ideal length whatever the window's, and the portion is one more than the
      number of schedules the window overlaps. */
  function Placed(team: Team, r: Reservation, w: Window): Schedule {
    Schedule(team.id, team.club, team.coach, r.field.id, team.preferredFieldSize, r.date,
             w.start, w.start, w.end, team.practiceLength, w.count + 1)
  }

  function KeyFor(team: Team, r: Reservation): ScheduleKey {
    ScheduleKey(team.id, team.club, r.date)
  }

  /** The schedule one reservation yields for the team, if it is not skipped: its date must
      not already hold a persisted schedule of the team nor be the date just staged, it must
      be a preferred day, the search must find a window, and the window must pass the
      checks. */
  function Candidate(st: EvalState, r: Reservation, team: Team, flags: SkipFlags,
                     coaches: seq<Coach>, persisted: seq<Schedule>): (c: Option<Schedule>)
    requires ValidTeam(team) && AllProper(persisted) && AllProper(st.staged) && 0 <= r.start
    ensures c.Some? ==> KeyOf(c.value) == KeyFor(team, r) && !HasKey(persisted, KeyFor(team, r))
    ensures c.Some? ==> st.last != Some(r.date)
    ensures c.Some? ==> ProperTimes(c.value) && r.start <= c.value.start
    ensures c.Some? ==> c.value.end <= r.end || c.value.end == c.value.start + team.minimumLength ||
                        (c.value.start == InitialStart(team, r) && c.value.end == InitialEnd(team, r))
    ensures c.Some? ==> c.value.field == r.field.id && c.value.coach == team.coach
    ensures c.Some? ==> c.value.length == team.practiceLength && c.value.portion >= 1
  {
    if HasKey(persisted, KeyFor(team, r)) then None
    else if st.last == Some(r.date) then None
    else if !CheckTeamsPrefferedDay(WeekdayName(r.day), team, flags) then None
    else
      match Search(r, team, persisted, st.staged)
      case None => None
      case Some(w) =>
        SearchSound(r, team, persisted, st.staged, w);
        if Eligible(r, team, flags, w, coaches, persisted, st.staged) then Some(Placed(team, r, w))
        else None
  }

  /** A reservation from 09:00 to 10:00 on an empty field, for a team that prefers exactly
      that hour and practises 90 minutes (60 at least): the first candidate, 09:00 to 10:30,
      is never checked against the reservation's end, so the team is staged past it, while
      the search with the reservation's end enforced finds no window. */
  lemma CandidateOverrun()
    ensures var r := Reservation(1, 1, Field(2, None, None), "01/01/1970", 0, 540, 600);
            var team := Team(1, 1, 7, 90, 60, 540, 600, [WeekdayName(0)], "all", None, None, 1);
            && Candidate(Start, r, team, NoSkips, [Coach(7, 0, 1440)], []) == Some(Placed(team, r, Window(540, 630, 0)))
            && Placed(team, r, Window(540, 630, 0)).end > r.end
            && Solve(SettingFor(r, team, [], []), InitialStart(team, r), InitialEnd(team, r)) == None
  {
    var r := Reservation(1, 1, Field(2, None, None), "01/01/1970", 0, 540, 600);
    var team := Team(1, 1, 7, 90, 60, 540, 600, [WeekdayName(0)], "all", None, None, 1);
    var st := SettingFor(r, team, [], []);
    assert Overlapping(st, 540, 630) == [];
    assert Filter(Overlapping(st, 540, 630), OfCoach(7)) == [];
    assert SolveStep(st, 540, 630) == Done(Window(540, 630, 0));
    assert Search(r, team, [], []) == Some(Window(540, 630, 0));
    assert OtherTeamSchedules([], [], 7, r.date, team.id) == [];
  }

  /** One turn of the loop; once the quota is met every later turn leaves the state alone,
      as the `break` of `evaluateAndCountSchedules` does. */
  function Turn(st: EvalState, r: Reservation, team: Team, flags: SkipFlags, quota: nat,
                coaches: seq<Coach>, persisted: seq<Schedule>): (next: EvalState)
    requires ValidTeam(team) && AllProper(persisted) && AllProper(st.staged) && 0 <= r.start
    ensures st.count >= quota ==> next == st
    ensures next == st || (
      && next.count == st.count + 1 <= quota
      && |next.staged| == |st.staged| + 1 && next.staged[..|st.staged|] == st.staged
      && next.staged[|st.staged|].date == r.date && next.last == Some(r.date)
      && st.last != Some(r.date))
  {
    if st.count >= quota then st
    else match Candidate(st, r, team, flags, coaches, persisted)
      case None => st
      case Some(s) => EvalState(st.count + 1, st.staged + [s], Some(r.date))
  }

  /** The state after the loop has seen the reservations of `chunk`. */
  function Evaluate(chunk: seq<Reservation>, team: Team, flags: SkipFlags, quota: nat,
                    coaches: seq<Coach>, persisted: seq<Schedule>): (e: EvalState)
    requires ValidTeam(team) && AllProper(persisted) && ValidChunk(chunk)
    ensures e.count == |e.staged| <= quota
    ensures AllProper(e.staged)
    ensures e.staged == [] <==> e.last.None?
    ensures e.staged != [] ==> e.last == Some(e.staged[|e.staged| - 1].date)
    decreases |chunk|
  {
    if chunk == [] then Start
    else
      var prev := Evaluate(chunk[..|chunk| - 1], team, flags, quota, coaches, persisted);
      Turn(prev, chunk[|chunk| - 1], team, flags, quota, coaches, persisted)
  }

  /** The loop over one more reservation takes one more turn. */
  lemma EvaluatePrefix(chunk: seq<Reservation>, i: nat, team: Team, flags: SkipFlags, quota: nat,
                       coaches: seq<Coach>, persisted: seq<Schedule>)
    requires ValidTeam(team) && AllProper(persisted) && ValidChunk(chunk) && i < |chunk|
    ensures ValidChunk(chunk[..i]) && ValidChunk(chunk[..i + 1]) && 0 <= chunk[i].start
    ensures var prev := Evaluate(chunk[..i], team, flags, quota, coaches, persisted);
      Evaluate(chunk[..i + 1], team, flags, quota, coaches, persisted) ==
      Turn(prev, chunk[i], team, flags, quota, coaches, persisted)
  {
    assert forall x | x in chunk[..i + 1] :: x in chunk;
    assert chunk[..i + 1][..i] == chunk[..i];
    assert chunk[..i + 1][i] == chunk[i];
    assert chunk[i] in chunk;
  }

  /** Once the quota is met the rest of the chunk changes nothing. */
  lemma {:induction false} EvaluateIdle(chunk: seq<Reservation>, i: nat, team: Team, flags: SkipFlags, quota: nat,
                                        coaches: seq<Coach>, persisted: seq<Schedule>)
    requires ValidTeam(team) && AllProper(persisted) && ValidChunk(chunk) && i <= |chunk|
    requires Evaluate(chunk[..i], team, flags, quota, coaches, persisted).count >= quota
    ensures Evaluate(chunk, team, flags, quota, coaches, persisted) ==
            Evaluate(chunk[..i], team, flags, quota, coaches, persisted)
    decreases |chunk|
  {
    if i < |chunk| {
      var init := chunk[..|chunk| - 1];
      assert init[..i] == chunk[..i];
      EvaluateIdle(init, i, team, flags, quota, coaches, persisted);
    } else {
      assert chunk[..i] == chunk;
    }
  }

  /** A staged practice passed every check on the window the search found from the first
      candidate, and starts no earlier than that candidate. When it ends by the
      reservation's end, it is the first candidate, or has the ideal length, or the minimum
      length where the ideal one does not fit; its portion is one more than the number of
      schedules it overlaps on the field, the field had room (or nothing overlapped), and
      no schedule of the same coach overlaps it. When it runs past the reservation's end,
      it is the first candidate or has the minimum length. */
  lemma CandidateSound(st: EvalState, r: Reservation, team: Team, flags: SkipFlags,
                       coaches: seq<Coach>, persisted: seq<Schedule>, s: Schedule)
    requires ValidTeam(team) && AllProper(persisted) && AllProper(st.staged) && 0 <= r.start
    requires Candidate(st, r, team, flags, coaches, persisted) == Some(s)
    ensures Eligible(r, team, flags, Window(s.start, s.end, s.portion - 1), coaches, persisted, st.staged)
    ensures InitialStart(team, r) <= s.start < s.end
    ensures var setting := SettingFor(r, team, persisted, st.staged);
      var cs := InitialStart(team, r);
      s.end <= r.end ==>
      && ((s.start == cs && s.end == InitialEnd(team, r)) || s.end == s.start + team.practiceLength ||
          (s.end == s.start + team.minimumLength && s.start + team.practiceLength > r.end))
      && s.portion - 1 == |Overlapping(setting, s.start, s.end)|
      && (s.portion - 1 < Capacity(r) || s.portion == 1)
      && (forall o | o in Overlapping(setting, s.start, s.end) :: o.coach != team.coach)
    ensures s.end > r.end ==>
      (s.start == InitialStart(team, r) && s.end == InitialEnd(team, r)) || s.end == s.start + team.minimumLength
  {
    var w := Search(r, team, persisted, st.staged).value;
    SearchSound(r, team, persisted, st.staged, w);
    assert s == Placed(team, r, w);
    assert w == Window(s.start, s.end, s.portion - 1);
  }

  /** Every staged schedule belongs to the team, has the team's ideal length and a portion
      of at least one, was not persisted before, and lies inside a reservation of the chunk
      on its date and field. */
  lemma {:induction false} EvaluateStaged(chunk: seq<Reservation>, team: Team, flags: SkipFlags, quota: nat,
                                          coaches: seq<Coach>, persisted: seq<Schedule>)
    requires ValidTeam(team) && AllProper(persisted) && ValidChunk(chunk)
    ensures forall s | s in Evaluate(chunk, team, flags, quota, coaches, persisted).staged ::
      && s.team == team.id && s.club == team.club && s.coach == team.coach
      && s.length == team.practiceLength && s.portion >= 1
      && !HasKey(persisted, KeyOf(s))
      && exists r | r in chunk :: r.date == s.date && r.field.id == s.field && r.start <= s.start &&
           (s.end <= r.end || s.end == s.start + team.minimumLength ||
            (s.start == InitialStart(team, r) && s.end == InitialEnd(team, r)))
    decreases |chunk|
  {
    if chunk != [] {
      var init := chunk[..|chunk| - 1];
      var r := chunk[|chunk| - 1];
      assert forall x | x in init :: x in chunk;
      EvaluateStaged(init, team, flags, quota, coaches, persisted);
    }
  }

  /** The position of the first reservation with the date, or the chunk's length. */
  function FirstIndex(chunk: seq<Reservation>, date: string): (i: nat)
    ensures i <= |chunk|
    ensures i < |chunk| ==> chunk[i].date == date
    ensures forall j | 0 <= j < i :: chunk[j].date != date
    decreases |chunk|
  {
    if chunk == [] then 0
    else if chunk[0].date == date then 0
    else 1 + FirstIndex(chunk[1..], date)
  }

  /** The staged dates first occur among the first `n` reservations, in strictly
      increasing positions. */
  predicate OrderedIn(whole: seq<Reservation>, n: nat, staged: seq<Schedule>) {
    && (forall a | 0 <= a < |staged| :: FirstIndex(whole, staged[a].date) < n)
    && (forall a, b | 0 <= a < b < |staged| ::
          FirstIndex(whole, staged[a].date) < FirstIndex(whole, staged[b].date))
  }

  /** When dates are contiguous, a date that first occurs before position `k` and differs
      from the date at `k` first occurs before that date does: otherwise every reservation
      from the first occurrence of the date at `k` up to `k` would share it. */
  lemma FirstIndexBefore(whole: seq<Reservation>, k: nat, d: string)
    requires Contiguous(whole) && k < |whole|
    requires FirstIndex(whole, d) < k && d != whole[k].date
    ensures FirstIndex(whole, d) < FirstIndex(whole, whole[k].date)
  {
    var g := FirstIndex(whole, d);
    var f := FirstIndex(whole, whole[k].date);
    assert f <= k;
    assert whole[g].date == d;
  }

  /** Staging a schedule whose date first occurs before position `n`, and after the last
      staged date does, keeps the order. */
  lemma OrderedStep(whole: seq<Reservation>, n: nat, staged: seq<Schedule>, s: Schedule)
    requires 0 < n && OrderedIn(whole, n - 1, staged) && FirstIndex(whole, s.date) < n
    requires staged != [] ==> FirstIndex(whole, staged[|staged| - 1].date) < FirstIndex(whole, s.date)
    ensures OrderedIn(whole, n, staged + [s])
  {
    var next := staged + [s];
    forall a | 0 <= a < |next| ensures FirstIndex(whole, next[a].date) < n {
      if a < |staged| {
        assert next[a] == staged[a];
      }
    }
    forall a, b | 0 <= a < b < |next| ensures FirstIndex(whole, next[a].date) < FirstIndex(whole, next[b].date) {
      assert next[a] == staged[a];
      if b < |staged| {
        assert next[b] == staged[b];
      } else if a < |staged| - 1 {
        assert FirstIndex(whole, staged[a].date) < FirstIndex(whole, staged[|staged| - 1].date);
      }
    }
  }

  /** Over a contiguous chunk the staged dates first occur in the part already seen, in
      strictly increasing positions. */
  lemma {:induction false} EvaluateOrdered(whole: seq<Reservation>, n: nat, team: Team, flags: SkipFlags, quota: nat,
                                           coaches: seq<Coach>, persisted: seq<Schedule>)
    requires ValidTeam(team) && AllProper(persisted) && ValidChunk(whole) && n <= |whole| && Contiguous(whole)
    ensures ValidChunk(whole[..n])
    ensures OrderedIn(whole, n, Evaluate(whole[..n], team, flags, quota, coaches, persisted).staged)
  {
    assert forall x | x in whole[..n] :: x in whole;
    if n > 0 {
      EvaluateOrdered(whole, n - 1, team, flags, quota, coaches, persisted);
      assert whole[..n][..n - 1] == whole[..n - 1];
      assert whole[..n][n - 1] == whole[n - 1];
      var prev := Evaluate(whole[..n - 1], team, flags, quota, coaches, persisted);
      var e := Evaluate(whole[..n], team, flags, quota, coaches, persisted);
      assert e == Turn(prev, whole[n - 1], team, flags, quota, coaches, persisted);
      if e != prev {
        var s := e.staged[|prev.staged|];
        assert e.staged == prev.staged + [s];
        assert FirstIndex(whole, s.date) <= n - 1;
        if prev.staged != [] {
          FirstIndexBefore(whole, n - 1, prev.staged[|prev.staged| - 1].date);
        }
        OrderedStep(whole, n, prev.staged, s);
      }
    }
  }

  /** `evaluateAndCountSchedules` stages at most one practice per date when reservations of
      one date are adjacent, as they are in a chunk sorted by day. */
  lemma EvaluateDistinctDates(chunk: seq<Reservation>, team: Team, flags: SkipFlags, quota: nat,
                              coaches: seq<Coach>, persisted: seq<Schedule>)
    requires ValidTeam(team) && AllProper(persisted) && ValidChunk(chunk) && Contiguous(chunk)
    ensures var staged := Evaluate(chunk, team, flags, quota, coaches, persisted).staged;
      forall a, b | 0 <= a < b < |staged| :: staged[a].date != staged[b].date
  {
    EvaluateOrdered(chunk, |chunk|, team, flags, quota, coaches, persisted);
    assert chunk[..|chunk|] == chunk;
    var staged := Evaluate(chunk, team, flags, quota, coaches, persisted).staged;
    forall a, b | 0 <= a < b < |staged| ensures staged[a].date != staged[b].date {
      assert FirstIndex(chunk, staged[a].date) < FirstIndex(chunk, staged[b].date);
    }
  }

  /** `evaluateAndCountSchedules`, reading the persisted schedules as they were when the
      evaluation began (the evaluation writes nothing). */
  method EvaluateAndCountSchedules(chunk: seq<Reservation>, team: Team, flags: SkipFlags, quota: nat,
                                   coaches: seq<Coach>, persisted: seq<Schedule>)
    returns (total: nat, staged: seq<Schedule>)
    requires ValidTeam(team) && AllProper(persisted) && ValidChunk(chunk)
    ensures var e := Evaluate(chunk, team, flags, quota, coaches, persisted);
      total == e.count && staged == e.staged
  {
    total := 0;
    staged := [];
    var last: Option<string> := None;
    for i := 0 to |chunk|
      invariant EvalState(total, staged, last) == Evaluate(chunk[..i], team, flags, quota, coaches, persisted)
    {
      var st := EvalState(total, staged, last);
      if total >= quota {
        EvaluateIdle(chunk, i, team, flags, quota, coaches, persisted);
        break;
      }
      EvaluatePrefix(chunk, i, team, flags, quota, coaches, persisted);
      var r := chunk[i];
      var step := StepReservation(st, r, team, flags, coaches, persisted);
      if step.Some? {
        staged := staged + [step.value];
        total := total + 1;
        last := Some(r.date);
      }
    }
    assert chunk[..|chunk|] == chunk;
  }

  /** The initial call of the search, from the first candidate. */
  method SearchWindow(r: Reservation, team: Team, persisted: seq<Schedule>, staged: seq<Schedule>)
    returns (w: Option<Window>)
    requires ValidTeam(team) && AllProper(persisted) && AllProper(staged)
    ensures w == Search(r, team, persisted, staged)
  {
    SettingValid(r, team, persisted, staged);
    var setting := SettingFor(r, team, persisted, staged);
    var cs := InitialStart(team, r);
    var ce := InitialEnd(team, r);
    w := CheckAndAssignTimes(setting, cs, ce);
  }

  /** One reservation of the loop body: the skips and the checks in the order `evaluateAndCountSchedules` applies them. */
  method StepReservation(st: EvalState, r: Reservation, team: Team, flags: SkipFlags,
                         coaches: seq<Coach>, persisted: seq<Schedule>)
    returns (c: Option<Schedule>)
    requires ValidTeam(team) && AllProper(persisted) && AllProper(st.staged) && 0 <= r.start
    ensures c == Candidate(st, r, team, flags, coaches, persisted)
  {
    if HasKey(persisted, KeyFor(team, r)) {
      return None;
    }
    if st.last == Some(r.date) {
      return None;
    }
    var dayName := WeekdayName(r.day);
    if !CheckTeamsPrefferedDay(dayName, team, flags) {
      return None;
    }
    var result := SearchWindow(r, team, persisted, st.staged);
    if result.None? {
      return None;
    }
    var w := result.value;
    var coachOk := FindCompatibleCoach(team, coaches, w.start, w.end, r.date, r.field.id, persisted, st.staged);
    var region := CheckRegion(r.field.region, team.region, flags);
    var preferredTime := CheckTeamPrefferedTime(r.end, team, flags);
    var travelling := CheckTeamTravelling(team, r.day);
    if !region || !preferredTime || !coachOk || travelling {
      return None;
    }
    c := Some(Placed(team, r, w));
  }
}
