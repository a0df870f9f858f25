/** `generateSchedules`: for every chunk of reservations and every ranked team, evaluate the
    chunk with no checks skipped and, while the team gets fewer practices than it prefers
    days, again with one more check skipped (the timing check, then slot availability,
    then the region); the staged schedules of the attempt that meets the quota, or of the
    last attempt, are saved once and counted for the team. */
module Scheduler {
  import opened Common
  import opened Records
  import opened Chunker
  import opened Ranking
  import opened Evaluator
  import opened Store

  /** The flags the escalation sets, in the order it sets them. */
  datatype FlagName = TimingCheck | SlotAvailability | Region

  const Escalation: seq<FlagName> := [TimingCheck, SlotAvailability, Region]

  /** `skipFlags[flag] = true`. */
  function Raise(flags: SkipFlags, name: FlagName): SkipFlags {
    match name
    case TimingCheck => flags.(skipTimingCheck := true)
    case SlotAvailability => flags.(skipSlotAvailability := true)
    case Region => flags.(skipRegion := true)
  }

  /** The flags of attempt `level`: no flags at first, then each attempt sets the next flag
      of the escalation on the same object, so the flags accumulate. The skip of the
      preferred days is never set. */
  function FlagsAt(level: nat): (flags: SkipFlags)
    requires level <= |Escalation|
    ensures flags.skipTimingCheck <==> level >= 1
    ensures flags.skipSlotAvailability <==> level >= 2
    ensures flags.skipRegion <==> level >= 3
    ensures !flags.skipPreferredDays
  {
    if level == 0 then NoSkips else Raise(FlagsAt(level - 1), Escalation[level - 1])
  }

  /** `totalSchedulesTeamShouldGet`. */
  function Quota(team: Team): nat {
    |team.preferredDays|
  }

  /** The evaluation of attempt `level`. */
  function Attempt(chunk: seq<Reservation>, team: Team, level: nat, coaches: seq<Coach>,
                   persisted: seq<Schedule>): EvalState
    requires level <= |Escalation|
    requires ValidTeam(team) && AllProper(persisted) && ValidChunk(chunk)
  {
    Evaluate(chunk, team, FlagsAt(level), Quota(team), coaches, persisted)
  }

  /** The attempt whose schedules are saved: the first that meets the quota, or the last
      one when none does. */
  function FinalLevel(chunk: seq<Reservation>, team: Team, coaches: seq<Coach>, persisted: seq<Schedule>,
                      from: nat): (level: nat)
    requires from <= |Escalation|
    requires ValidTeam(team) && AllProper(persisted) && ValidChunk(chunk)
    ensures from <= level <= |Escalation|
    ensures forall l | from <= l < level :: Attempt(chunk, team, l, coaches, persisted).count < Quota(team)
    ensures level < |Escalation| ==> Attempt(chunk, team, level, coaches, persisted).count >= Quota(team)
    decreases |Escalation| - from
  {
    if from == |Escalation| || Attempt(chunk, team, from, coaches, persisted).count >= Quota(team) then from
    else FinalLevel(chunk, team, coaches, persisted, from + 1)
  }

  /** The attempt whose schedules are saved and counted. */
  function Final(chunk: seq<Reservation>, team: Team, coaches: seq<Coach>, persisted: seq<Schedule>): EvalState
    requires ValidTeam(team) && AllProper(persisted) && ValidChunk(chunk)
  {
    Attempt(chunk, team, FinalLevel(chunk, team, coaches, persisted, 0), coaches, persisted)
  }

  /** The flag for slot availability is read by no check, so the attempt that sets it
      stages exactly what the attempt before it staged. */
  lemma {:induction false} SlotFlagInert(chunk: seq<Reservation>, team: Team, coaches: seq<Coach>,
                                         persisted: seq<Schedule>)
    requires ValidTeam(team) && AllProper(persisted) && ValidChunk(chunk)
    ensures Attempt(chunk, team, 2, coaches, persisted) == Attempt(chunk, team, 1, coaches, persisted)
    decreases |chunk|
  {
    if chunk != [] {
      var init := chunk[..|chunk| - 1];
      assert forall x | x in init :: x in chunk;
      SlotFlagInert(init, team, coaches, persisted);
      var prev := Attempt(init, team, 1, coaches, persisted);
      var r := chunk[|chunk| - 1];
      assert r in chunk;
      assert Candidate(prev, r, team, FlagsAt(2), coaches, persisted) ==
             Candidate(prev, r, team, FlagsAt(1), coaches, persisted);
    }
  }

  /** Because of that, the escalation never ends on the attempt that sets the flag for
      slot availability: when the attempt before it falls short, so does it. */
  lemma FinalLevelSkipsSlot(chunk: seq<Reservation>, team: Team, coaches: seq<Coach>, persisted: seq<Schedule>)
    requires ValidTeam(team) && AllProper(persisted) && ValidChunk(chunk)
    ensures FinalLevel(chunk, team, coaches, persisted, 0) != 2
  {
    SlotFlagInert(chunk, team, coaches, persisted);
  }

  /** The collection and the per-team counts (`schedulesCount`). */
  datatype Outcome = Outcome(schedules: seq<Schedule>, counts: map<int, nat>)

  predicate ValidSchedules(schedules: seq<Schedule>) {
    UniqueKeys(schedules) && AllProper(schedules)
  }

  /** Saving proper schedules keeps the collection valid. */
  lemma SaveAllValid(schedules: seq<Schedule>, items: seq<Schedule>)
    requires ValidSchedules(schedules) && AllProper(items)
    ensures ValidSchedules(SaveAll(schedules, items))
  {
    SaveAllSpec(schedules, items);
  }

  /** `schedulesCount[team._id] += total`. */
  function AddCount(counts: map<int, nat>, id: int, total: nat): (next: map<int, nat>)
    requires id in counts
    ensures next.Keys == counts.Keys && next[id] == counts[id] + total
    ensures forall other | other in counts && other != id :: next[other] == counts[other]
  {
    counts[id := counts[id] + total]
  }

  /** One team on one chunk: the final attempt's schedules saved and its count added. */
  function ServeSpec(o: Outcome, chunk: seq<Reservation>, team: Team, coaches: seq<Coach>): (next: Outcome)
    requires ValidTeam(team) && ValidChunk(chunk) && ValidSchedules(o.schedules) && team.id in o.counts
    ensures ValidSchedules(next.schedules)
    ensures next.counts.Keys == o.counts.Keys
    ensures o.counts[team.id] <= next.counts[team.id] <= o.counts[team.id] + Quota(team)
    ensures forall id | id in o.counts && id != team.id :: next.counts[id] == o.counts[id]
  {
    var e := Final(chunk, team, coaches, o.schedules);
    SaveAllValid(o.schedules, e.staged);
    Outcome(SaveAll(o.schedules, e.staged), AddCount(o.counts, team.id, e.count))
  }

  predicate AllValidTeams(teams: seq<Team>) {
    forall t | t in teams :: ValidTeam(t)
  }

  predicate Counted(teams: seq<Team>, counts: map<int, nat>) {
    forall t | t in teams :: t.id in counts
  }

  /** The loop over the ranked teams for one chunk. */
  function ServeAll(o: Outcome, chunk: seq<Reservation>, teams: seq<Team>, coaches: seq<Coach>): (next: Outcome)
    requires AllValidTeams(teams) && ValidChunk(chunk) && ValidSchedules(o.schedules) && Counted(teams, o.counts)
    ensures ValidSchedules(next.schedules)
    ensures next.counts.Keys == o.counts.Keys
    ensures forall id | id in o.counts :: o.counts[id] <= next.counts[id]
    decreases |teams|
  {
    if teams == [] then o
    else
      var init := teams[..|teams| - 1];
      assert forall t | t in init :: t in teams;
      var prev := ServeAll(o, chunk, init, coaches);
      assert teams[|teams| - 1] in teams;
      ServeSpec(prev, chunk, teams[|teams| - 1], coaches)
  }

  /** Serving one more team serves the teams before it, then that team. */
  lemma ServeAllSnoc(o: Outcome, chunk: seq<Reservation>, teams: seq<Team>, i: nat, coaches: seq<Coach>)
    requires AllValidTeams(teams) && ValidChunk(chunk) && ValidSchedules(o.schedules) && Counted(teams, o.counts)
    requires i < |teams|
    ensures AllValidTeams(teams[..i]) && Counted(teams[..i], o.counts)
    ensures var prev := ServeAll(o, chunk, teams[..i], coaches);
      teams[i] in teams && teams[i].id in prev.counts &&
      ServeAll(o, chunk, teams[..i + 1], coaches) == ServeSpec(prev, chunk, teams[i], coaches)
  {
    assert forall t | t in teams[..i + 1] :: t in teams;
    assert teams[..i + 1][..i] == teams[..i];
    assert teams[..i + 1][i] == teams[i];
    assert teams[i] in teams;
  }

  predicate AllValidChunks(chunks: seq<seq<Reservation>>) {
    forall k | 0 <= k < |chunks| :: ValidChunk(chunks[k])
  }

  /** The loop over the chunks. */
  function RunAll(o: Outcome, chunks: seq<seq<Reservation>>, teams: seq<Team>, coaches: seq<Coach>): (next: Outcome)
    requires AllValidTeams(teams) && AllValidChunks(chunks) && ValidSchedules(o.schedules) && Counted(teams, o.counts)
    ensures ValidSchedules(next.schedules)
    ensures next.counts.Keys == o.counts.Keys
    ensures forall id | id in o.counts :: o.counts[id] <= next.counts[id]
    decreases |chunks|
  {
    if chunks == [] then o
    else
      var prev := RunAll(o, chunks[..|chunks| - 1], teams, coaches);
      ServeAll(prev, chunks[|chunks| - 1], teams, coaches)
  }

  /** Serving a team keeps every earlier record, the team's own included (a date that
      already holds one of its records is skipped), and adds only records of the team. */
  lemma ServeKeeps(o: Outcome, chunk: seq<Reservation>, team: Team, coaches: seq<Coach>)
    requires ValidTeam(team) && ValidChunk(chunk) && ValidSchedules(o.schedules) && team.id in o.counts
    ensures var next := ServeSpec(o, chunk, team, coaches).schedules;
      && (forall s | s in o.schedules :: s in next)
      && (forall s | s in next :: s in o.schedules || s.team == team.id)
  {
    var level := FinalLevel(chunk, team, coaches, o.schedules, 0);
    var e := Attempt(chunk, team, level, coaches, o.schedules);
    EvaluateStaged(chunk, team, FlagsAt(level), Quota(team), coaches, o.schedules);
    SaveAllSpec(o.schedules, e.staged);
    forall s | s in o.schedules ensures LastWithKey(e.staged, KeyOf(s)).None? {
      assert HasKey(o.schedules, KeyOf(s));
    }
  }

  /** One team on one chunk, as `generateSchedules` runs it: the first evaluation, then one more
      per flag of the escalation while the quota is not met, and a single save of the
      schedules of the attempt that ends the escalation, whose count is added to the
      team's. */
  method ServeTeam(store: ScheduleStore, chunk: seq<Reservation>, team: Team, coaches: seq<Coach>,
                   counts: map<int, nat>)
    returns (next: map<int, nat>, ghost saves: nat)
    requires store.Valid() && ValidTeam(team) && ValidChunk(chunk) && team.id in counts
    modifies store
    ensures Outcome(store.schedules, next) == ServeSpec(Outcome(old(store.schedules), counts), chunk, team, coaches)
    ensures saves == 1
    ensures store.Valid()
  {
    ghost var persisted := store.schedules;
    ghost var e := Final(chunk, team, coaches, persisted);
    var quota := Quota(team);
    var flags := NoSkips;
    var total, staged := EvaluateAndCountSchedules(chunk, team, flags, quota, coaches, store.schedules);
    saves := 0;
    if total >= quota {
      assert total == e.count && staged == e.staged;
      store.SaveSchedules(staged);
      saves := saves + 1;
      next := AddCount(counts, team.id, total);
      return;
    }
    var level := 0;
    while level < |Escalation|
      invariant level <= |Escalation| && store.schedules == persisted && saves == 0
      invariant flags == FlagsAt(level)
      invariant total < quota
      invariant FinalLevel(chunk, team, coaches, persisted, 0) == FinalLevel(chunk, team, coaches, persisted, level)
      invariant total == Attempt(chunk, team, level, coaches, persisted).count
      invariant staged == Attempt(chunk, team, level, coaches, persisted).staged
    {
      flags := Raise(flags, Escalation[level]);
      level := level + 1;
      total, staged := EvaluateAndCountSchedules(chunk, team, flags, quota, coaches, store.schedules);
      if total >= quota {
        assert total == e.count && staged == e.staged;
        store.SaveSchedules(staged);
        saves := saves + 1;
        next := AddCount(counts, team.id, total);
        return;
      }
    }
    assert total == e.count && staged == e.staged;
    store.SaveSchedules(staged);
    saves := saves + 1;
    next := AddCount(counts, team.id, total);
  }

  /** The ranked teams on one chunk. */
  method ServeTeams(store: ScheduleStore, chunk: seq<Reservation>, teams: seq<Team>, coaches: seq<Coach>,
                    counts: map<int, nat>)
    returns (next: map<int, nat>)
    requires store.Valid() && AllValidTeams(teams) && ValidChunk(chunk) && Counted(teams, counts)
    modifies store
    ensures Outcome(store.schedules, next) == ServeAll(Outcome(old(store.schedules), counts), chunk, teams, coaches)
    ensures store.Valid()
  {
    next := counts;
    for i := 0 to |teams|
      invariant store.Valid()
      invariant Outcome(store.schedules, next) == ServeAll(Outcome(old(store.schedules), counts), chunk, teams[..i], coaches)
    {
      ServeAllSnoc(Outcome(old(store.schedules), counts), chunk, teams, i, coaches);
      ghost var saves;
      next, saves := ServeTeam(store, chunk, teams[i], coaches, next);
    }
    assert teams[..|teams|] == teams;
  }

  function TeamIds(teams: seq<Team>): set<int> {
    set t | t in teams :: t.id
  }

  /** The initial counts: zero for every team. */
  function ZeroCounts(teams: seq<Team>): (counts: map<int, nat>)
    ensures Counted(teams, counts)
    ensures forall id | id in counts :: counts[id] == 0
  {
    map id | id in TeamIds(teams) :: 0
  }

  /** `sortedTeams`: the teams ranked, each of them a team of the input. */
  function Ranked(teams: seq<Team>): (ranked: seq<Team>)
    ensures multiset(ranked) == multiset(teams)
    ensures forall t | t in ranked :: t in teams
  {
    RankTeamsPermutation(teams);
    assert forall t | t in RankTeams(teams) :: t in multiset(teams);
    RankTeams(teams)
  }

  /** `generateSchedules`: chunk the reservations, rank the teams, and serve every ranked
      team on every chunk in turn. */
  method GenerateSchedules(store: ScheduleStore, reservations: seq<Reservation>, teams: seq<Team>,
                           coaches: seq<Coach>)
    returns (counts: map<int, nat>, chunks: seq<seq<Reservation>>)
    requires store.Valid() && AllSupported(reservations) && ValidChunk(reservations) && AllValidTeams(teams)
    modifies store
    ensures AllValidChunks(chunks) && forall r | r in reservations :: r in Flatten(chunks)
    ensures AllDated(reservations) ==> AllContiguous(chunks)
    ensures Outcome(store.schedules, counts) ==
            RunAll(Outcome(old(store.schedules), ZeroCounts(teams)), chunks, Ranked(teams), coaches)
    ensures store.Valid()
  {
    var sorted;
    ghost var weeks, firstPass;
    chunks, sorted, weeks, firstPass := ChunkReservations(reservations);
    var ranked := Ranked(teams);
    forall k | 0 <= k < |chunks| ensures ValidChunk(chunks[k]) {
      forall r | r in chunks[k] ensures 0 <= r.start {
        assert r in reservations;
      }
    }
    counts := ServeChunks(store, chunks, ranked, coaches, ZeroCounts(teams));
  }

  /** The chunks in turn, each served to every ranked team. */
  method ServeChunks(store: ScheduleStore, chunks: seq<seq<Reservation>>, teams: seq<Team>,
                     coaches: seq<Coach>, counts: map<int, nat>)
    returns (next: map<int, nat>)
    requires store.Valid() && AllValidTeams(teams) && AllValidChunks(chunks) && Counted(teams, counts)
    modifies store
    ensures Outcome(store.schedules, next) == RunAll(Outcome(old(store.schedules), counts), chunks, teams, coaches)
    ensures store.Valid()
  {
    next := counts;
    for k := 0 to |chunks|
      invariant store.Valid()
      invariant Outcome(store.schedules, next) ==
                RunAll(Outcome(old(store.schedules), counts), chunks[..k], teams, coaches)
    {
      assert chunks[..k + 1][..k] == chunks[..k];
      next := ServeTeams(store, chunks[k], teams, coaches, next);
    }
    assert chunks[..|chunks|] == chunks;
  }
}
