/** The order in which `generateSchedules` serves the teams of a club: the teams (fetched
    by name) are grouped by coach, the groups are sorted by size with the largest first,
    flattened, and the result is sorted by practice length with the longest first. Both
    sorts are stable. */
module Ranking {
  import opened Common
  import opened Sorting
  import opened Records

  /** One entry of the object the `reduce` builds: a coach and the teams pushed for them. */
  datatype Group = Group(coach: int, teams: seq<Team>)

  /** The position of the entry for coach `c`, if there is one. */
  function IndexOf(m: seq<Group>, c: int): (r: Option<nat>)
    ensures r.Some? ==> r.value < |m| && m[r.value].coach == c
    ensures r.None? ==> forall g | g in m :: g.coach != c
    decreases |m|
  {
    if m == [] then None
    else if m[|m| - 1].coach == c then Some(|m| - 1)
    else IndexOf(m[..|m| - 1], c)
  }

  /** The `reduce` over the teams: a team is pushed onto its coach's entry, and a coach
      seen for the first time gets a new entry after the existing ones (the insertion
      order `Object.values` follows for keys that are not array indices). */
  function GroupByCoach(teams: seq<Team>): (m: seq<Group>)
    decreases |teams|
  {
    if teams == [] then [] else Push(GroupByCoach(teams[..|teams| - 1]), teams[|teams| - 1])
  }

  /** One step of the `reduce`: `map[team.coach_id].push(team)`, creating the entry first
      when the coach has none. */
  function Push(m: seq<Group>, t: Team): seq<Group> {
    match IndexOf(m, t.coach)
    case Some(i) => m[i := Group(m[i].coach, m[i].teams + [t])]
    case None => m + [Group(t.coach, [t])]
  }

  /** `Object.values`. */
  function Values(m: seq<Group>): (vs: seq<seq<Team>>)
    ensures |vs| == |m| && forall i | 0 <= i < |m| :: vs[i] == m[i].teams
  {
    seq(|m|, i requires 0 <= i < |m| => m[i].teams)
  }

  function OfCoach(c: int): Team -> bool {
    (t: Team) => t.coach == c
  }

  /** The comparator `b.length - a.length`: larger groups first. */
  function BySize(g: seq<Team>): Key {
    Key(-|g|, 0)
  }

  /** The comparator `b.practice_length - a.practice_length`: longer practices first. */
  function ByLength(t: Team): Key {
    Key(-t.practiceLength, 0)
  }

  /** The coach groups sorted by size and flattened. */
  function GroupedBySize(teams: seq<Team>): seq<Team> {
    Flatten(SortBy(Values(GroupByCoach(teams)), BySize))
  }

  /** `sortedTeams`. */
  function RankTeams(teams: seq<Team>): seq<Team> {
    SortBy(GroupedBySize(teams), ByLength)
  }

  predicate DistinctCoaches(m: seq<Group>) {
    forall i, j | 0 <= i < j < |m| :: m[i].coach != m[j].coach
  }

  predicate GroupsAreFilters(teams: seq<Team>, m: seq<Group>) {
    forall i | 0 <= i < |m| :: m[i].teams == Filter(teams, OfCoach(m[i].coach))
  }

  predicate Covers(teams: seq<Team>, m: seq<Group>) {
    forall t | t in teams :: exists g | g in m :: g.coach == t.coach
  }

  /** The grouping is a partition of the teams by coach: one non-empty entry per coach,
      holding exactly that coach's teams in their original order. */
  predicate PartitionsByCoach(teams: seq<Team>, m: seq<Group>) {
    && DistinctCoaches(m)
    && GroupsAreFilters(teams, m)
    && (forall i | 0 <= i < |m| :: m[i].teams != [])
    && Covers(teams, m)
  }

  lemma PushDistinct(m: seq<Group>, t: Team)
    requires DistinctCoaches(m)
    ensures DistinctCoaches(Push(m, t))
  {
    if IndexOf(m, t.coach).None? {
      var m' := Push(m, t);
      forall i, j | 0 <= i < j < |m'| ensures m'[i].coach != m'[j].coach {
        if j == |m| {
          assert m[i] in m;
        }
      }
    }
  }

  lemma PushCovers(teams: seq<Team>, m: seq<Group>, t: Team)
    requires Covers(teams, m)
    ensures Covers(teams + [t], Push(m, t))
  {
    var m' := Push(m, t);
    forall u | u in teams + [t] ensures exists g | g in m' :: g.coach == u.coach {
      if u == t {
        match IndexOf(m, t.coach)
        case Some(i) => assert m'[i] in m';
        case None => assert m'[|m|] in m';
      } else {
        var g :| g in m && g.coach == u.coach;
        var k :| 0 <= k < |m| && m[k] == g;
        assert m'[k].coach == u.coach && m'[k] in m';
      }
    }
  }

  lemma FilterCoachSnoc(teams: seq<Team>, t: Team, c: int)
    ensures Filter(teams + [t], OfCoach(c)) ==
            Filter(teams, OfCoach(c)) + (if t.coach == c then [t] else [])
  {
    FilterSnoc(teams, t, OfCoach(c));
  }

  lemma NoTeamsOfNewCoach(teams: seq<Team>, m: seq<Group>, c: int)
    requires Covers(teams, m) && forall g | g in m :: g.coach != c
    ensures Filter(teams, OfCoach(c)) == []
  {
    forall t | t in teams ensures t.coach != c {
      var g :| g in m && g.coach == t.coach;
    }
  }

  lemma PushFilters(teams: seq<Team>, m: seq<Group>, t: Team)
    requires DistinctCoaches(m) && GroupsAreFilters(teams, m) && Covers(teams, m)
    ensures GroupsAreFilters(teams + [t], Push(m, t))
  {
    var m' := Push(m, t);
    match IndexOf(m, t.coach)
    case Some(i) =>
      forall k | 0 <= k < |m'| ensures m'[k].teams == Filter(teams + [t], OfCoach(m'[k].coach)) {
        FilterCoachSnoc(teams, t, m'[k].coach);
        if k != i {
          assert m[k].coach != m[i].coach by {
            if k < i { assert m[k].coach != m[i].coach; } else { assert m[i].coach != m[k].coach; }
          }
        }
      }
    case None =>
      NoTeamsOfNewCoach(teams, m, t.coach);
      forall k | 0 <= k < |m'| ensures m'[k].teams == Filter(teams + [t], OfCoach(m'[k].coach)) {
        FilterCoachSnoc(teams, t, m'[k].coach);
        if k < |m| {
          assert m[k] in m;
        }
      }
  }

  lemma {:induction false} FlattenUpdate(vs: seq<seq<Team>>, i: nat, t: Team)
    requires i < |vs|
    ensures multiset(Flatten(vs[i := vs[i] + [t]])) == multiset(Flatten(vs)) + multiset{t}
    decreases |vs|
  {
    var ws := vs[i := vs[i] + [t]];
    assert ws[..|ws| - 1] == if i < |vs| - 1 then vs[..|vs| - 1][i := vs[i] + [t]] else vs[..|vs| - 1];
    if i < |vs| - 1 {
      FlattenUpdate(vs[..|vs| - 1], i, t);
    }
  }

  lemma PushMultiset(m: seq<Group>, t: Team)
    ensures multiset(Flatten(Values(Push(m, t)))) == multiset(Flatten(Values(m))) + multiset{t}
  {
    var m' := Push(m, t);
    match IndexOf(m, t.coach)
    case Some(i) =>
      assert Values(m') == Values(m)[i := Values(m)[i] + [t]];
      FlattenUpdate(Values(m), i, t);
    case None =>
      assert Values(m') == Values(m) + [[t]];
      FlattenSnoc(Values(m), [t]);
  }

  /** The `reduce` partitions the teams by coach, and the groups together hold every
      team exactly as often as the input does. */
  lemma {:induction false} GroupByCoachPartitions(teams: seq<Team>)
    ensures PartitionsByCoach(teams, GroupByCoach(teams))
    ensures multiset(Flatten(Values(GroupByCoach(teams)))) == multiset(teams)
    decreases |teams|
  {
    if teams != [] {
      var init, t := teams[..|teams| - 1], teams[|teams| - 1];
      assert init + [t] == teams;
      GroupByCoachPartitions(init);
      PushPartitions(init, GroupByCoach(init), t);
    }
  }

  lemma PushPartitions(teams: seq<Team>, m: seq<Group>, t: Team)
    requires PartitionsByCoach(teams, m)
    requires multiset(Flatten(Values(m))) == multiset(teams)
    ensures PartitionsByCoach(teams + [t], Push(m, t))
    ensures multiset(Flatten(Values(Push(m, t)))) == multiset(teams + [t])
  {
    PushDistinct(m, t);
    PushCovers(teams, m, t);
    PushFilters(teams, m, t);
    PushMultiset(m, t);
    PushNonEmpty(m, t);
  }

  lemma PushNonEmpty(m: seq<Group>, t: Team)
    requires forall i | 0 <= i < |m| :: m[i].teams != []
    ensures forall i | 0 <= i < |Push(m, t)| :: Push(m, t)[i].teams != []
  {
  }

  /** Every team is served exactly once: the ranking is a permutation of the teams. */
  lemma RankTeamsPermutation(teams: seq<Team>)
    ensures multiset(RankTeams(teams)) == multiset(teams)
  {
    var vs := Values(GroupByCoach(teams));
    GroupByCoachPartitions(teams);
    var sorted := SortBy(vs, BySize);
    assert multiset(sorted) == multiset(vs);
    FlattenPermutation(vs, sorted);
  }

  lemma {:induction false} FlattenRemove(b: seq<seq<Team>>, k: nat)
    requires k < |b|
    ensures multiset(Flatten(b)) == multiset(Flatten(b[..k] + b[k + 1..])) + multiset(b[k])
  {
    var pre, x, post := b[..k], b[k], b[k + 1..];
    assert b == (pre + [x]) + post;
    FlattenConcat(pre + [x], post);
    FlattenSnoc(pre, x);
    FlattenConcat(pre, post);
    assert Flatten(b) == Flatten(pre) + x + Flatten(post);
    assert Flatten(pre + post) == Flatten(pre) + Flatten(post);
    assert multiset(Flatten(b)) == multiset(Flatten(pre)) + multiset(x) + multiset(Flatten(post));
    assert b[..k] + b[k + 1..] == pre + post;
  }

  lemma {:induction false} FlattenPermutation(a: seq<seq<Team>>, b: seq<seq<Team>>)
    requires multiset(a) == multiset(b)
    ensures multiset(Flatten(a)) == multiset(Flatten(b))
    decreases |a|
  {
    if a != [] {
      var x := a[|a| - 1];
      assert x in multiset(b);
      var k :| 0 <= k < |b| && b[k] == x;
      var rest := b[..k] + b[k + 1..];
      assert b == b[..k] + [x] + b[k + 1..];
      assert a == a[..|a| - 1] + [x];
      assert multiset(rest) == multiset(b) - multiset{x};
      FlattenPermutation(a[..|a| - 1], rest);
      FlattenRemove(b, k);
    }
  }

  /** Longer practices are served first. */
  lemma RankTeamsOrder(teams: seq<Team>, i: int, j: int)
    requires 0 <= i < j < |RankTeams(teams)|
    ensures RankTeams(teams)[i].practiceLength >= RankTeams(teams)[j].practiceLength
  {
    assert KeyLe(ByLength(RankTeams(teams)[i]), ByLength(RankTeams(teams)[j]));
  }

  /** Coaches with more teams come first in the flattened list, before the length sort. */
  lemma GroupsBySizeOrder(teams: seq<Team>, i: int, j: int)
    requires 0 <= i < j < |SortBy(Values(GroupByCoach(teams)), BySize)|
    ensures |SortBy(Values(GroupByCoach(teams)), BySize)[i]| >= |SortBy(Values(GroupByCoach(teams)), BySize)[j]|
  {
    var sorted := SortBy(Values(GroupByCoach(teams)), BySize);
    assert KeyLe(BySize(sorted[i]), BySize(sorted[j]));
  }

  /** Teams with the same practice length keep the order of the size-sorted coach groups. */
  lemma RankTeamsTies(teams: seq<Team>, length: int)
    ensures Filter(RankTeams(teams), HasKey(ByLength, Key(-length, 0))) ==
            Filter(GroupedBySize(teams), HasKey(ByLength, Key(-length, 0)))
  {
    SortByStable(GroupedBySize(teams), ByLength, Key(-length, 0));
  }
}
