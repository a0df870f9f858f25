/** The `Schedule` collection and `saveSchedules`, which upserts each staged schedule on
    the key (team, club, date): an existing record with that key is overwritten with the
    staged fields, otherwise the schedule is inserted. */
module Store {
  import opened Common
  import opened Records

  /** No two records share a key. */
  predicate UniqueKeys(schedules: seq<Schedule>) {
    forall i, j | 0 <= i < j < |schedules| :: KeyOf(schedules[i]) != KeyOf(schedules[j])
  }

  /** The first record with the key, as `findOneAndUpdate` picks it. */
  function FindKey(schedules: seq<Schedule>, key: ScheduleKey): (r: Option<nat>)
    ensures r.Some? ==> r.value < |schedules| && KeyOf(schedules[r.value]) == key
    ensures r.Some? ==> forall i | 0 <= i < r.value :: KeyOf(schedules[i]) != key
    ensures r.None? ==> forall s | s in schedules :: KeyOf(s) != key
    decreases |schedules|
  {
    if schedules == [] then None
    else if KeyOf(schedules[0]) == key then Some(0)
    else match FindKey(schedules[1..], key)
      case Some(i) => Some(i + 1)
      case None => None
  }

  /** `Schedule.exists({ team_id, club_id, schedule_date })`. */
  predicate HasKey(schedules: seq<Schedule>, key: ScheduleKey) {
    exists s | s in schedules :: KeyOf(s) == key
  }

  /** `findOneAndUpdate(query, { $set: ... }, { upsert: true })`: the `$set` writes every
      field of the record that is not part of the key, so the updated record is the staged
      one. */
  function Upsert(schedules: seq<Schedule>, item: Schedule): seq<Schedule> {
    match FindKey(schedules, KeyOf(item))
    case Some(i) => schedules[i := item]
    case None => schedules + [item]
  }

  /** After an upsert the item is stored, it is the only record with its key, every record
      with another key is still there, and nothing else was added. */
  lemma UpsertSpec(schedules: seq<Schedule>, item: Schedule)
    requires UniqueKeys(schedules)
    ensures var r := Upsert(schedules, item);
      && UniqueKeys(r)
      && item in r
      && (forall s | s in r && KeyOf(s) == KeyOf(item) :: s == item)
      && (forall s | s in schedules && KeyOf(s) != KeyOf(item) :: s in r)
      && (forall s | s in r :: s == item || s in schedules)
      && |r| == |schedules| + (if HasKey(schedules, KeyOf(item)) then 0 else 1)
  {
    var r := Upsert(schedules, item);
    match FindKey(schedules, KeyOf(item))
    case Some(i) =>
      assert r[i] == item;
      forall k | 0 <= k < |r| && k != i ensures KeyOf(r[k]) != KeyOf(item) {
        assert r[k] == schedules[k];
      }
      forall s | s in schedules && KeyOf(s) != KeyOf(item) ensures s in r {
        var k :| 0 <= k < |schedules| && schedules[k] == s;
        assert r[k] == s;
      }
      forall s | s in r ensures s == item || s in schedules {
        var k :| 0 <= k < |r| && r[k] == s;
        if k != i {
          assert schedules[k] == s;
        }
      }
      assert HasKey(schedules, KeyOf(item)) by {
        assert schedules[i] in schedules;
      }
    case None =>
      assert r[|schedules|] == item;
      forall k | 0 <= k < |schedules| ensures KeyOf(r[k]) != KeyOf(item) {
        assert schedules[k] in schedules;
      }
      forall i, j | 0 <= i < j < |r| ensures KeyOf(r[i]) != KeyOf(r[j]) {
        if j == |schedules| {
          assert schedules[i] in schedules;
        }
      }
  }

  /** `saveSchedules`: the staged schedules upserted in order. */
  function SaveAll(schedules: seq<Schedule>, items: seq<Schedule>): seq<Schedule>
    decreases |items|
  {
    if items == [] then schedules
    else Upsert(SaveAll(schedules, items[..|items| - 1]), items[|items| - 1])
  }

  /** The last staged schedule with a key, if any. */
  function LastWithKey(items: seq<Schedule>, key: ScheduleKey): (r: Option<Schedule>)
    ensures r.Some? ==> r.value in items && KeyOf(r.value) == key
    ensures r.None? ==> forall s | s in items :: KeyOf(s) != key
    decreases |items|
  {
    if items == [] then None
    else if KeyOf(items[|items| - 1]) == key then Some(items[|items| - 1])
    else LastWithKey(items[..|items| - 1], key)
  }

  /** Saving keeps the keys unique; for every key the stored record is the last staged
      schedule with that key, or, when no staged schedule has it, the record that was
      already stored. Nothing but staged schedules is added. */
  lemma {:induction false} SaveAllSpec(schedules: seq<Schedule>, items: seq<Schedule>)
    requires UniqueKeys(schedules)
    ensures var r := SaveAll(schedules, items);
      && UniqueKeys(r)
      && (forall s | s in schedules && LastWithKey(items, KeyOf(s)).None? :: s in r)
      && (forall s | s in r :: s in schedules || s in items)
      && (forall s | s in r :: LastWithKey(items, KeyOf(s)).Some? ==> s == LastWithKey(items, KeyOf(s)).value)
      && (forall s | s in items :: LastWithKey(items, KeyOf(s)).value in r)
    decreases |items|
  {
    if items != [] {
      var init, item := items[..|items| - 1], items[|items| - 1];
      SaveAllSpec(schedules, init);
      var prev := SaveAll(schedules, init);
      UpsertSpec(prev, item);
      var r := Upsert(prev, item);
      forall s | s in schedules && LastWithKey(items, KeyOf(s)).None? ensures s in r {
        assert KeyOf(s) != KeyOf(item);
        assert LastWithKey(init, KeyOf(s)).None?;
      }
      forall s | s in r ensures s in schedules || s in items {
        if s != item {
          assert s in prev;
          if s !in schedules {
            assert s in init;
            assert items[..|items| - 1] == init;
          }
        }
      }
      forall s | s in r ensures LastWithKey(items, KeyOf(s)).Some? ==> s == LastWithKey(items, KeyOf(s)).value {
        if KeyOf(s) != KeyOf(item) {
          assert s in prev;
        }
      }
      forall s | s in items ensures LastWithKey(items, KeyOf(s)).value in r {
        if KeyOf(s) != KeyOf(item) {
          assert s in init by {
            var k :| 0 <= k < |items| && items[k] == s;
            assert k < |items| - 1;
            assert init[k] == s;
          }
          assert LastWithKey(init, KeyOf(s)).value in prev;
        }
      }
    }
  }

  /** The collection, held in memory. */
  class ScheduleStore {
    var schedules: seq<Schedule>

    /** At most one record per key, and every record an interval of positive length. */
    predicate Valid()
      reads this
    {
      UniqueKeys(schedules) && forall s | s in schedules :: ProperTimes(s)
    }

    constructor(initial: seq<Schedule>)
      requires UniqueKeys(initial) && forall s | s in initial :: ProperTimes(s)
      ensures Valid() && schedules == initial
    {
      schedules := initial;
    }

    /** `Schedule.exists(query)`. */
    predicate Exists(key: ScheduleKey)
      reads this
    {
      HasKey(schedules, key)
    }

    /** One `findOneAndUpdate` with upsert. */
    method Save(item: Schedule)
      requires Valid() && ProperTimes(item)
      modifies this
      ensures schedules == Upsert(old(schedules), item)
      ensures Valid()
    {
      UpsertSpec(schedules, item);
      schedules := Upsert(schedules, item);
    }

    /** `saveSchedules`. */
    method SaveSchedules(items: seq<Schedule>)
      requires Valid() && forall s | s in items :: ProperTimes(s)
      modifies this
      ensures schedules == SaveAll(old(schedules), items)
      ensures Valid()
    {
      var i := 0;
      while i < |items|
        invariant 0 <= i <= |items|
        invariant Valid()
        invariant schedules == SaveAll(old(schedules), items[..i])
      {
        assert items[..i + 1][..i] == items[..i];
        Save(items[i]);
        i := i + 1;
      }
      assert items[..|items|] == items;
    }
  }
}
