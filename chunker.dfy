/** `chunkReservations`: sort the reservations by date and then by length, cut them
    into weekly chunks admitting each date string once, then rechunk the weeks of the
    reservations that were turned away. */
module Chunker {
  import opened Common
  import opened Text
  import opened Dates
  import opened Sorting
  import opened Records

  /** The stored date string is the "MM/DD/YYYY" rendering of the reservation's day, as
      `formatDate` writes it, and that day is late enough for its whole week to be
      formatted and read back. */
  predicate Dated(r: Reservation) {
    r.date == FormatDate(r.day) && Supported(r)
  }

  predicate AllDated(rs: seq<Reservation>) {
    forall r | r in rs :: Dated(r)
  }

  /** The reservation's whole week is late enough to be formatted and read back. */
  predicate Supported(r: Reservation) {
    r.day - 6 >= FirstSupportedDay
  }

  /** `parseDate` reads a dated reservation's string as its day. */
  lemma DatedParses(r: Reservation)
    requires Dated(r)
    ensures ParseDate(r.date) == Some(r.day)
  {
    SupportedRoundTrip(r.day);
  }

  /** Two dated reservations share a date string exactly when they share a day. */
  lemma DatedSameDate(a: Reservation, b: Reservation)
    requires Dated(a) && Dated(b)
    ensures a.date == b.date <==> a.day == b.day
  {
    DatedParses(a);
    DatedParses(b);
  }

  predicate AllSupported(rs: seq<Reservation>) {
    forall r | r in rs :: Supported(r)
  }

  /** The comparator of the first sort: by date ascending, then by duration descending. */
  function SortKey(r: Reservation): Key {
    Key(r.day, -(r.end - r.start))
  }

  function SortReservations(rs: seq<Reservation>): (sorted: seq<Reservation>)
    ensures multiset(sorted) == multiset(rs)
  {
    SortBy(rs, SortKey)
  }

  /** The sorted reservations run by date ascending and, within a date, by duration
      descending, and they are the input rearranged. */
  lemma SortReservationsOrder(rs: seq<Reservation>, i: int, j: int)
    requires 0 <= i < j < |rs|
    ensures var s := SortReservations(rs);
      s[i] in rs && s[j] in rs && s[i].day <= s[j].day &&
      (s[i].day == s[j].day ==> s[i].end - s[i].start >= s[j].end - s[j].start)
  {
    var s := SortReservations(rs);
    assert s[i] in multiset(rs) && s[j] in multiset(rs);
    assert KeyLe(SortKey(s[i]), SortKey(s[j]));
  }

  /** The test `processChunk` applies: the reservation's day lies between the two
      formatted bounds, both read back with `parseDate`; an unreadable bound fails it. */
  function InWeekRange(start: string, end: string): Reservation -> bool {
    var lo := ParseDate(start);
    var hi := ParseDate(end);
    (r: Reservation) => lo.Some? && hi.Some? && lo.value <= r.day <= hi.value
  }

  /** `processChunk`: the slice of the whole sorted list inside the bounds. */
  function ProcessChunk(sorted: seq<Reservation>, start: string, end: string): seq<Reservation> {
    Filter(sorted, InWeekRange(start, end))
  }

  /** The slice of the sorted list in the week range of day `d`, as `processChunk` cuts it
      from the formatted bounds. */
  function WeekOf(sorted: seq<Reservation>, d: int): seq<Reservation> {
    ProcessChunk(sorted, GetWeekRange(d).0, GetWeekRange(d).1)
  }

  /** The days from `lo` to `hi`. */
  function InDays(lo: int, hi: int): Reservation -> bool {
    (r: Reservation) => lo <= r.day <= hi
  }

  /** The slice of the sorted list whose days lie in the week bounds of `d`. */
  function WeekSlice(sorted: seq<Reservation>, d: int): seq<Reservation> {
    Filter(sorted, InDays(WeekBounds(d).0, WeekBounds(d).1))
  }

  lemma InWeekSlice(sorted: seq<Reservation>, d: int, r: Reservation)
    ensures r in WeekSlice(sorted, d) <==>
      r in sorted && WeekBounds(d).0 <= r.day <= WeekBounds(d).1
  {
  }

  /** Cutting with the formatted bounds of a week selects exactly the days of that week. */
  lemma WeekOfIsSlice(sorted: seq<Reservation>, d: int)
    requires d - 6 >= FirstSupportedDay
    ensures WeekOf(sorted, d) == WeekSlice(sorted, d)
  {
    var range := GetWeekRange(d);
    FilterAgree(sorted, InWeekRange(range.0, range.1), InDays(WeekBounds(d).0, WeekBounds(d).1));
  }

  function DatesOf(s: seq<Reservation>): set<string> {
    set r | r in s :: r.date
  }

  /** No two entries share a date string. */
  predicate DistinctDates(s: seq<Reservation>) {
    forall i, j | 0 <= i < j < |s| :: s[i].date != s[j].date
  }

  lemma DatesOfConcat(a: seq<Reservation>, b: seq<Reservation>)
    ensures DatesOf(a + b) == DatesOf(a) + DatesOf(b)
  {
    forall x | x in DatesOf(a + b) ensures x in DatesOf(a) + DatesOf(b) {
      var r :| r in a + b && r.date == x;
    }
  }

  lemma DistinctConcat(a: seq<Reservation>, b: seq<Reservation>)
    requires DistinctDates(a) && DistinctDates(b)
    requires forall r | r in b :: r.date !in DatesOf(a)
    ensures DistinctDates(a + b)
  {
    forall i, j | 0 <= i < j < |a + b| ensures (a + b)[i].date != (a + b)[j].date {
      if i < |a| && j >= |a| {
        assert (a + b)[j] in b;
        assert (a + b)[i] in a;
      }
    }
  }

  /** The filter of the first pass over one week's slice, as a function: a reservation
      whose date string has not been seen is kept (and its date recorded), any other is
      turned away. The result is (kept, turned away, dates seen afterwards). */
  function Scan(window: seq<Reservation>, seen: set<string>)
    : (seq<Reservation>, seq<Reservation>, set<string>)
    decreases |window|
  {
    if window == [] then ([], [], seen)
    else
      var prev := Scan(window[..|window| - 1], seen);
      var r := window[|window| - 1];
      if r.date !in prev.2 then (prev.0 + [r], prev.1, prev.2 + {r.date})
      else (prev.0, prev.1 + [r], prev.2)
  }

  /** What the scan keeps: each date not seen before, at most once. */
  lemma {:induction false} ScanKeeps(window: seq<Reservation>, seen: set<string>)
    ensures var res := Scan(window, seen);
      res.2 == seen + DatesOf(res.0) &&
      DistinctDates(res.0) && (forall r | r in res.0 :: r.date !in seen)
    decreases |window|
  {
    if window != [] {
      var init, r := window[..|window| - 1], window[|window| - 1];
      ScanKeeps(init, seen);
      var prev := Scan(init, seen);
      if r.date !in prev.2 {
        DatesOfConcat(prev.0, [r]);
        DistinctConcat(prev.0, [r]);
      }
    }
  }

  /** What the scan keeps is in window order. */
  lemma {:induction false} ScanInOrder(window: seq<Reservation>, seen: set<string>)
    ensures SubseqOf(Scan(window, seen).0, window)
    decreases |window|
  {
    if window != [] {
      var init, r := window[..|window| - 1], window[|window| - 1];
      ScanInOrder(init, seen);
      var prev := Scan(init, seen);
      assert window == init + [r];
      SubseqExtend(prev.0, init, r, r.date !in prev.2);
    }
  }

  /** Nothing is lost: every entry of the window is kept or turned away, and what is turned
      away has a date that was seen. */
  lemma {:induction false} ScanCovers(window: seq<Reservation>, seen: set<string>)
    ensures var res := Scan(window, seen);
      (forall r | r in window :: r in res.0 || r in res.1) &&
      (forall r | r in res.1 :: r in window && r.date in res.2) &&
      seen <= res.2
    decreases |window|
  {
    if window != [] {
      var init, r := window[..|window| - 1], window[|window| - 1];
      ScanCovers(init, seen);
      assert window == init + [r];
    }
  }

  /** The scan of one week's slice, keeping the set of seen dates across weeks. */
  method ScanWindow(window: seq<Reservation>, seen: set<string>)
    returns (kept: seq<Reservation>, turnedAway: seq<Reservation>, seenAfter: set<string>)
    ensures (kept, turnedAway, seenAfter) == Scan(window, seen)
  {
    kept, turnedAway, seenAfter := [], [], seen;
    var j := 0;
    while j < |window|
      invariant 0 <= j <= |window|
      invariant (kept, turnedAway, seenAfter) == Scan(window[..j], seen)
    {
      var r := window[j];
      assert window[..j + 1][..j] == window[..j];
      if r.date !in seenAfter {
        seenAfter := seenAfter + {r.date};
        kept := kept + [r];
      } else {
        turnedAway := turnedAway + [r];
      }
      j := j + 1;
    }
    assert window[..j] == window;
  }

  /** Days of a date-sorted list never decrease. */
  lemma SortedDays(sorted: seq<Reservation>, i: int, j: int)
    requires AllSupported(sorted) && SortedBy(sorted, SortKey) && 0 <= i <= j < |sorted|
    ensures sorted[i].day <= sorted[j].day
  {
    if i < j {
      assert KeyLe(SortKey(sorted[i]), SortKey(sorted[j]));
    }
  }

  /** The chunks so far are non-empty in-order slices of their weeks, in increasing week
      order. */
  ghost predicate ChunksInWeeks(sorted: seq<Reservation>, chunks: seq<seq<Reservation>>, weeks: seq<int>) {
    |weeks| == |chunks| &&
    (forall k | 0 <= k < |chunks| ::
      chunks[k] != [] && SubseqOf(chunks[k], WeekSlice(sorted, weeks[k])) && weeks[k] - 6 >= FirstSupportedDay) &&
    (forall k, k' | 0 <= k < k' < |chunks| :: WeekBounds(weeks[k]).1 < weeks[k'])
  }

  /** What holds each time the first loop's cursor stands at `dp`. */
  ghost predicate FirstPassInvariant(sorted: seq<Reservation>, dp: int, chunks: seq<seq<Reservation>>,
    duplicates: seq<Reservation>, weeks: seq<int>, seen: set<string>)
  {
    0 <= dp <= |sorted| &&
    ChunksInWeeks(sorted, chunks, weeks) &&
    (forall k, i | 0 <= k < |chunks| && dp <= i < |sorted| :: WeekBounds(weeks[k]).1 < sorted[i].day) &&
    seen == DatesOf(Flatten(chunks)) &&
    DistinctDates(Flatten(chunks)) &&
    (forall i | 0 <= i < dp :: sorted[i] in Flatten(chunks) || sorted[i] in duplicates) &&
    (forall r | r in duplicates :: r in sorted && r.date in seen)
  }

  lemma ChunksStep(sorted: seq<Reservation>, dp: int, chunks: seq<seq<Reservation>>, weeks: seq<int>,
    anchor: int, kept: seq<Reservation>)
    requires AllSupported(sorted) && 0 <= dp < |sorted| && anchor == sorted[dp].day
    requires ChunksInWeeks(sorted, chunks, weeks)
    requires forall k | 0 <= k < |chunks| :: WeekBounds(weeks[k]).1 < sorted[dp].day
    requires SubseqOf(kept, WeekSlice(sorted, anchor))
    ensures |kept| > 0 ==> ChunksInWeeks(sorted, chunks + [kept], weeks + [anchor])
  {
    if |kept| > 0 {
      assert sorted[dp] in sorted;
      ChunksStepMembers(sorted, chunks, weeks, anchor, kept);
      WeeksStepOrder(weeks, anchor);
    }
  }

  lemma ChunksStepMembers(sorted: seq<Reservation>, chunks: seq<seq<Reservation>>, weeks: seq<int>,
    anchor: int, kept: seq<Reservation>)
    requires |weeks| == |chunks|
    requires forall k | 0 <= k < |chunks| ::
      chunks[k] != [] && SubseqOf(chunks[k], WeekSlice(sorted, weeks[k])) && weeks[k] - 6 >= FirstSupportedDay
    requires kept != [] && SubseqOf(kept, WeekSlice(sorted, anchor)) && anchor - 6 >= FirstSupportedDay
    ensures var cs, ws := chunks + [kept], weeks + [anchor];
      forall k | 0 <= k < |cs| ::
        cs[k] != [] && SubseqOf(cs[k], WeekSlice(sorted, ws[k])) && ws[k] - 6 >= FirstSupportedDay
  {
    var cs, ws := chunks + [kept], weeks + [anchor];
    forall k | 0 <= k < |cs|
      ensures cs[k] != [] && SubseqOf(cs[k], WeekSlice(sorted, ws[k])) && ws[k] - 6 >= FirstSupportedDay
    {
      if k < |chunks| {
        assert cs[k] == chunks[k] && ws[k] == weeks[k];
      }
    }
  }

  lemma WeeksStepOrder(weeks: seq<int>, anchor: int)
    requires forall k, k' | 0 <= k < k' < |weeks| :: WeekBounds(weeks[k]).1 < weeks[k']
    requires forall k | 0 <= k < |weeks| :: WeekBounds(weeks[k]).1 < anchor
    ensures var ws := weeks + [anchor];
      forall k, k' | 0 <= k < k' < |ws| :: WeekBounds(ws[k]).1 < ws[k']
  {
    var ws := weeks + [anchor];
    forall k, k' | 0 <= k < k' < |ws| ensures WeekBounds(ws[k]).1 < ws[k'] {
      assert ws[k] == weeks[k];
      if k' < |weeks| {
        assert ws[k'] == weeks[k'];
      }
    }
  }

  lemma DatesStep(chunks: seq<seq<Reservation>>, kept: seq<Reservation>, seen: set<string>, seenAfter: set<string>)
    requires seen == DatesOf(Flatten(chunks)) && DistinctDates(Flatten(chunks))
    requires seenAfter == seen + DatesOf(kept) && DistinctDates(kept)
    requires forall r | r in kept :: r.date !in seen
    ensures var next := if |kept| > 0 then chunks + [kept] else chunks;
      seenAfter == DatesOf(Flatten(next)) && DistinctDates(Flatten(next)) &&
      Flatten(next) == Flatten(chunks) + kept
  {
    FlattenSnoc(chunks, kept);
    DatesOfConcat(Flatten(chunks), kept);
    DistinctConcat(Flatten(chunks), kept);
    if |kept| == 0 {
      assert Flatten(chunks) + kept == Flatten(chunks);
    }
  }

  lemma CoverStep(sorted: seq<Reservation>, dp: int, dp1: int, anchor: int, window: seq<Reservation>,
    kept: seq<Reservation>, turnedAway: seq<Reservation>, flat: seq<Reservation>, duplicates: seq<Reservation>)
    requires AllSupported(sorted) && SortedBy(sorted, SortKey) && 0 <= dp < dp1 <= |sorted|
    requires anchor == sorted[dp].day && window == WeekSlice(sorted, anchor)
    requires forall i | dp <= i < dp1 :: sorted[i].day <= WeekBounds(anchor).1
    requires forall r | r in window :: r in kept || r in turnedAway
    requires forall r | r in kept :: r in flat
    requires forall r | r in turnedAway :: r in duplicates
    ensures forall i | dp <= i < dp1 :: sorted[i] in flat || sorted[i] in duplicates
  {
    assert sorted[dp] in sorted;
    var b := WeekBounds(anchor);
    forall i | dp <= i < dp1 ensures sorted[i] in flat || sorted[i] in duplicates {
      SortedDays(sorted, dp, i);
      assert b.0 <= sorted[i].day <= b.1;
      InWeekSlice(sorted, anchor, sorted[i]);
      assert sorted[i] in window;
    }
  }

  lemma LaterStep(sorted: seq<Reservation>, dp1: int, weeks: seq<int>, anchor: int)
    requires AllSupported(sorted) && SortedBy(sorted, SortKey) && 0 <= dp1 <= |sorted|
    requires forall k, i | 0 <= k < |weeks| && dp1 <= i < |sorted| :: WeekBounds(weeks[k]).1 < sorted[i].day
    requires dp1 < |sorted| ==> WeekBounds(anchor).1 < sorted[dp1].day
    ensures var ws := weeks + [anchor];
      forall k, i | 0 <= k < |ws| && dp1 <= i < |sorted| :: WeekBounds(ws[k]).1 < sorted[i].day
  {
    var ws := weeks + [anchor];
    forall k, i | 0 <= k < |ws| && dp1 <= i < |sorted| ensures WeekBounds(ws[k]).1 < sorted[i].day {
      if k == |weeks| {
        SortedDays(sorted, dp1, i);
      } else {
        assert ws[k] == weeks[k];
      }
    }
  }

  /** One round of the first loop keeps the loop invariant. */
  lemma PassStep(sorted: seq<Reservation>, dp: int, dp1: int, chunks: seq<seq<Reservation>>,
    duplicates: seq<Reservation>, weeks: seq<int>, seen: set<string>,
    window: seq<Reservation>, kept: seq<Reservation>, turnedAway: seq<Reservation>, seenAfter: set<string>)
    requires AllSupported(sorted) && SortedBy(sorted, SortKey)
    requires FirstPassInvariant(sorted, dp, chunks, duplicates, weeks, seen)
    requires dp < dp1 <= |sorted|
    requires window == WeekSlice(sorted, sorted[dp].day)
    requires (kept, turnedAway, seenAfter) == Scan(window, seen)
    requires forall i | dp <= i < dp1 :: sorted[i].day <= WeekBounds(sorted[dp].day).1
    requires dp1 < |sorted| ==> WeekBounds(sorted[dp].day).1 < sorted[dp1].day
    ensures var next := if |kept| > 0 then chunks + [kept] else chunks;
      var nextWeeks := if |kept| > 0 then weeks + [sorted[dp].day] else weeks;
      FirstPassInvariant(sorted, dp1, next, duplicates + turnedAway, nextWeeks, seenAfter)
  {
    var anchor := sorted[dp].day;
    var next := if |kept| > 0 then chunks + [kept] else chunks;
    var nextWeeks := if |kept| > 0 then weeks + [anchor] else weeks;
    ScanKeeps(window, seen);
    ScanInOrder(window, seen);
    ScanCovers(window, seen);
    ChunksStep(sorted, dp, chunks, weeks, anchor, kept);
    DatesStep(chunks, kept, seen, seenAfter);
    var flat := Flatten(next);
    assert flat == Flatten(chunks) + kept;
    var dups := duplicates + turnedAway;
    CoverStep(sorted, dp, dp1, anchor, window, kept, turnedAway, flat, dups);
    forall i | 0 <= i < dp1 ensures sorted[i] in flat || sorted[i] in dups {
      if i < dp {
        assert sorted[i] in Flatten(chunks) || sorted[i] in duplicates;
      }
    }
    forall r | r in dups ensures r in sorted && r.date in seenAfter {
      if r in turnedAway {
        assert r in window;
      }
    }
    if |kept| > 0 {
      LaterStep(sorted, dp1, weeks, anchor);
    }
  }

  /** The slice of the sorted list in the week of `anchor` and the end of that week, as
      read back from its formatted string. */
  method WeekWindow(sorted: seq<Reservation>, anchor: int) returns (window: seq<Reservation>, hi: int)
    requires anchor - 6 >= FirstSupportedDay
    ensures window == WeekSlice(sorted, anchor) && hi == WeekBounds(anchor).1
  {
    var range := GetWeekRange(anchor);
    window := ProcessChunk(sorted, range.0, range.1);
    hi := ParseDate(range.1).value;
    WeekOfIsSlice(sorted, anchor);
  }

  /** The inner loop of the first pass: move the cursor past every reservation whose
      day is not after `hi`. */
  method SkipThrough(sorted: seq<Reservation>, dp: int, hi: int) returns (dp1: int)
    requires 0 <= dp <= |sorted|
    ensures dp <= dp1 <= |sorted|
    ensures forall i | dp <= i < dp1 :: sorted[i].day <= hi
    ensures dp1 < |sorted| ==> sorted[dp1].day > hi
  {
    dp1 := dp;
    while dp1 < |sorted| && sorted[dp1].day <= hi
      invariant dp <= dp1 <= |sorted|
      invariant forall i | dp <= i < dp1 :: sorted[i].day <= hi
      decreases |sorted| - dp1
    {
      dp1 := dp1 + 1;
    }
  }

  /** When the cursor has passed the whole list, every reservation is chunked or turned away. */
  lemma PassDone(sorted: seq<Reservation>, chunks: seq<seq<Reservation>>,
    duplicates: seq<Reservation>, weeks: seq<int>, seen: set<string>)
    requires FirstPassInvariant(sorted, |sorted|, chunks, duplicates, weeks, seen)
    ensures forall r | r in sorted :: r in Flatten(chunks) || r in duplicates
  {
    forall r | r in sorted ensures r in Flatten(chunks) || r in duplicates {
      var i :| 0 <= i < |sorted| && sorted[i] == r;
    }
  }

  /** The first loop: walk the sorted list week by week (the cursor moves past every
      reservation up to the end of the current week, compared as days), keep the first
      reservation of each date string, turn away the others. */
  method FirstPass(sorted: seq<Reservation>)
    returns (chunks: seq<seq<Reservation>>, duplicates: seq<Reservation>, ghost weeks: seq<int>)
    requires AllSupported(sorted) && SortedBy(sorted, SortKey)
    ensures ChunksInWeeks(sorted, chunks, weeks)
    ensures DistinctDates(Flatten(chunks))
    ensures forall r | r in sorted :: r in Flatten(chunks) || r in duplicates
    ensures forall r | r in duplicates :: r in sorted && r.date in DatesOf(Flatten(chunks))
  {
    chunks, duplicates, weeks := [], [], [];
    var seen: set<string> := {};
    var dp := 0;
    while dp < |sorted|
      invariant FirstPassInvariant(sorted, dp, chunks, duplicates, weeks, seen)
      decreases |sorted| - dp
    {
      var anchor := sorted[dp].day;
      assert sorted[dp] in sorted;
      var window, hi := WeekWindow(sorted, anchor);
      var kept, turnedAway, seenAfter := ScanWindow(window, seen);
      var dp1 := SkipThrough(sorted, dp, hi);
      PassStep(sorted, dp, dp1, chunks, duplicates, weeks, seen, window, kept, turnedAway, seenAfter);
      if |kept| > 0 {
        chunks := chunks + [kept];
        weeks := weeks + [anchor];
      }
      duplicates := duplicates + turnedAway;
      seen := seenAfter;
      dp := dp1;
    }
    PassDone(sorted, chunks, duplicates, weeks, seen);
  }

  /** The elements not in `chunk` (`!duplicateChunk.includes(r)`). */
  function NotIn(chunk: seq<Reservation>): Reservation -> bool {
    (r: Reservation) => r !in chunk
  }

  /** `duplicateChunk`: the week slice of `anchor`, filtered once more by the same bounds
      (which changes nothing). */
  method DuplicateChunk(sorted: seq<Reservation>, anchor: int) returns (chunk: seq<Reservation>)
    requires anchor - 6 >= FirstSupportedDay
    ensures chunk == WeekSlice(sorted, anchor)
  {
    var range := GetWeekRange(anchor);
    chunk := Filter(ProcessChunk(sorted, range.0, range.1), InWeekRange(range.0, range.1));
    FilterTwice(sorted, InWeekRange(range.0, range.1));
    WeekOfIsSlice(sorted, anchor);
  }

  /** What holds each time the second loop tests its condition. */
  ghost predicate RechunkInvariant(sorted: seq<Reservation>, duplicates: seq<Reservation>,
    pending: seq<Reservation>, chunks: seq<seq<Reservation>>, weeks: seq<int>)
  {
    (forall r | r in pending :: r in duplicates) &&
    (forall r | r in duplicates :: r in pending || r in Flatten(chunks)) &&
    |weeks| == |chunks| &&
    (forall k | 0 <= k < |chunks| ::
      chunks[k] != [] && chunks[k] == WeekSlice(sorted, weeks[k]) && weeks[k] - 6 >= FirstSupportedDay)
  }

  /** One round of the second loop keeps its invariant and shortens the pending list. */
  lemma RechunkStep(sorted: seq<Reservation>, duplicates: seq<Reservation>,
    pending: seq<Reservation>, chunks: seq<seq<Reservation>>, weeks: seq<int>, chunk: seq<Reservation>)
    requires AllSupported(sorted) && (forall r | r in duplicates :: r in sorted)
    requires RechunkInvariant(sorted, duplicates, pending, chunks, weeks)
    requires |pending| > 0 && chunk == WeekSlice(sorted, pending[0].day)
    ensures pending[0] in chunk
    ensures |Filter(pending, NotIn(chunk))| < |pending|
    ensures RechunkInvariant(sorted, duplicates, Filter(pending, NotIn(chunk)),
      chunks + [chunk], weeks + [pending[0].day])
  {
    var head := pending[0];
    assert head in duplicates && head in sorted;
    InWeekSlice(sorted, head.day, head);
    FilterDrops(pending, NotIn(chunk), head);
    WholeWeeksSnoc(sorted, chunks, weeks, chunk, head.day);
    PendingStep(duplicates, pending, chunks, chunk);
  }

  lemma WholeWeeksSnoc(sorted: seq<Reservation>, chunks: seq<seq<Reservation>>, weeks: seq<int>,
    chunk: seq<Reservation>, anchor: int)
    requires |weeks| == |chunks|
    requires forall k | 0 <= k < |chunks| ::
      chunks[k] != [] && chunks[k] == WeekSlice(sorted, weeks[k]) && weeks[k] - 6 >= FirstSupportedDay
    requires chunk != [] && chunk == WeekSlice(sorted, anchor) && anchor - 6 >= FirstSupportedDay
    ensures var cs, ws := chunks + [chunk], weeks + [anchor];
      forall k | 0 <= k < |cs| ::
        cs[k] != [] && cs[k] == WeekSlice(sorted, ws[k]) && ws[k] - 6 >= FirstSupportedDay
  {
    var cs, ws := chunks + [chunk], weeks + [anchor];
    forall k | 0 <= k < |cs|
      ensures cs[k] != [] && cs[k] == WeekSlice(sorted, ws[k]) && ws[k] - 6 >= FirstSupportedDay
    {
      if k < |chunks| {
        assert cs[k] == chunks[k] && ws[k] == weeks[k];
      }
    }
  }

  lemma PendingStep(duplicates: seq<Reservation>, pending: seq<Reservation>,
    chunks: seq<seq<Reservation>>, chunk: seq<Reservation>)
    requires forall r | r in pending :: r in duplicates
    requires forall r | r in duplicates :: r in pending || r in Flatten(chunks)
    ensures var rest := Filter(pending, NotIn(chunk));
      (forall r | r in rest :: r in duplicates) &&
      (forall r | r in duplicates :: r in rest || r in Flatten(chunks + [chunk]))
  {
    FlattenSnoc(chunks, chunk);
    var rest := Filter(pending, NotIn(chunk));
    forall r | r in duplicates ensures r in rest || r in Flatten(chunks + [chunk]) {
      if r in pending && r !in chunk {
        assert NotIn(chunk)(r);
      }
    }
  }

  /** The second loop: while reservations remain turned away, take the whole week slice
      of the first of them as a chunk and drop from the list everything in that chunk. */
  method RechunkDuplicates(sorted: seq<Reservation>, duplicates: seq<Reservation>)
    returns (chunks: seq<seq<Reservation>>, ghost weeks: seq<int>)
    requires AllSupported(sorted)
    requires forall r | r in duplicates :: r in sorted
    ensures |weeks| == |chunks|
    ensures forall k | 0 <= k < |chunks| ::
      chunks[k] != [] && chunks[k] == WeekSlice(sorted, weeks[k]) && weeks[k] - 6 >= FirstSupportedDay
    ensures forall r | r in duplicates :: r in Flatten(chunks)
  {
    chunks, weeks := [], [];
    var pending := duplicates;
    while |pending| > 0
      invariant RechunkInvariant(sorted, duplicates, pending, chunks, weeks)
      decreases |pending|
    {
      assert pending[0] in duplicates && pending[0] in sorted;
      var anchor := pending[0].day;
      var chunk := DuplicateChunk(sorted, anchor);
      RechunkStep(sorted, duplicates, pending, chunks, weeks, chunk);
      if |chunk| > 0 {
        chunks := chunks + [chunk];
        weeks := weeks + [anchor];
      }
      pending := Filter(pending, NotIn(chunk));
    }
  }

  /** A rearrangement has the same members. */
  lemma SameMembers(sorted: seq<Reservation>, reservations: seq<Reservation>)
    requires multiset(sorted) == multiset(reservations)
    ensures forall r :: r in sorted <==> r in reservations
  {
    forall r ensures r in sorted <==> r in reservations {
      assert r in sorted <==> r in multiset(sorted);
      assert r in reservations <==> r in multiset(reservations);
    }
  }

  /** The sorted list is in order and, like the reservations, supported. */
  lemma SortedSupported(reservations: seq<Reservation>)
    requires AllSupported(reservations)
    ensures var sorted := SortReservations(reservations);
      AllSupported(sorted) && SortedBy(sorted, SortKey)
  {
    SameMembers(SortReservations(reservations), reservations);
  }

  /** Chunks that are ordered slices of week slices hold reservations of those weeks. */
  lemma ChunkMembers(sorted: seq<Reservation>, chunks: seq<seq<Reservation>>, weeks: seq<int>)
    requires |weeks| == |chunks|
    requires forall k | 0 <= k < |chunks| ::
      SubseqOf(chunks[k], WeekSlice(sorted, weeks[k])) && weeks[k] - 6 >= FirstSupportedDay
    ensures forall k, r | 0 <= k < |chunks| && r in chunks[k] ::
      r in sorted && WeekBounds(weeks[k]).0 <= r.day <= WeekBounds(weeks[k]).1
  {
    forall k, r | 0 <= k < |chunks| && r in chunks[k]
      ensures r in sorted && WeekBounds(weeks[k]).0 <= r.day <= WeekBounds(weeks[k]).1
    {
      SubseqMembers(chunks[k], WeekSlice(sorted, weeks[k]));
      InWeekSlice(sorted, weeks[k], r);
    }
  }

  /** The chunks of both passes together: the first pass's as they are, the second pass's
      whole week slices. */
  lemma BothPasses(sorted: seq<Reservation>, first: seq<seq<Reservation>>, firstWeeks: seq<int>,
    second: seq<seq<Reservation>>, secondWeeks: seq<int>)
    requires ChunksInWeeks(sorted, first, firstWeeks)
    requires |secondWeeks| == |second|
    requires forall k | 0 <= k < |second| ::
      second[k] != [] && second[k] == WeekSlice(sorted, secondWeeks[k]) && secondWeeks[k] - 6 >= FirstSupportedDay
    ensures var chunks, weeks := first + second, firstWeeks + secondWeeks;
      forall k | 0 <= k < |chunks| ::
        chunks[k] != [] && SubseqOf(chunks[k], WeekSlice(sorted, weeks[k])) && weeks[k] - 6 >= FirstSupportedDay
  {
    var chunks, weeks := first + second, firstWeeks + secondWeeks;
    forall k | 0 <= k < |chunks|
      ensures chunks[k] != [] && SubseqOf(chunks[k], WeekSlice(sorted, weeks[k])) && weeks[k] - 6 >= FirstSupportedDay
    {
      if k < |first| {
        assert chunks[k] == first[k] && weeks[k] == firstWeeks[k];
      } else {
        assert chunks[k] == second[k - |first|] && weeks[k] == secondWeeks[k - |first|];
        SubseqSelf(chunks[k]);
      }
    }
  }

  /** What the two passes give together. */
  lemma Compose(sorted: seq<Reservation>,
    first: seq<seq<Reservation>>, duplicates: seq<Reservation>, firstWeeks: seq<int>,
    second: seq<seq<Reservation>>, secondWeeks: seq<int>)
    requires ChunksInWeeks(sorted, first, firstWeeks)
    requires forall r | r in sorted :: r in Flatten(first) || r in duplicates
    requires |secondWeeks| == |second|
    requires forall k | 0 <= k < |second| ::
      second[k] != [] && second[k] == WeekSlice(sorted, secondWeeks[k]) && secondWeeks[k] - 6 >= FirstSupportedDay
    requires forall r | r in duplicates :: r in Flatten(second)
    ensures var chunks, weeks := first + second, firstWeeks + secondWeeks;
      (forall k | 0 <= k < |chunks| ::
        chunks[k] != [] && SubseqOf(chunks[k], WeekSlice(sorted, weeks[k])) && weeks[k] - 6 >= FirstSupportedDay) &&
      (forall r | r in sorted :: r in Flatten(chunks)) &&
      chunks[..|first|] == first &&
      (forall k, k' | 0 <= k < k' < |first| :: WeekBounds(weeks[k]).1 < weeks[k']) &&
      (forall k | |first| <= k < |chunks| :: chunks[k] == WeekSlice(sorted, weeks[k]))
  {
    var chunks, weeks := first + second, firstWeeks + secondWeeks;
    assert chunks[..|first|] == first;
    FlattenConcat(first, second);
    BothPasses(sorted, first, firstWeeks, second, secondWeeks);
    forall k | |first| <= k < |chunks| ensures chunks[k] == WeekSlice(sorted, weeks[k]) {
      assert chunks[k] == second[k - |first|] && weeks[k] == secondWeeks[k - |first|];
    }
    forall k, k' | 0 <= k < k' < |first| ensures WeekBounds(weeks[k]).1 < weeks[k'] {
      assert weeks[k] == firstWeeks[k] && weeks[k'] == firstWeeks[k'];
    }
  }

  /** The reservations run by day. */
  predicate RunsByDay(s: seq<Reservation>) {
    forall i, j | 0 <= i < j < |s| :: s[i].day <= s[j].day
  }

  /** A chunk that runs by day, in which equal days and equal dates go together, is
      contiguous. */
  lemma SortedIsContiguous(chunk: seq<Reservation>)
    requires RunsByDay(chunk)
    requires forall i, j | 0 <= i < |chunk| && 0 <= j < |chunk| :: chunk[i].day == chunk[j].day <==> chunk[i].date == chunk[j].date
    ensures Contiguous(chunk)
  {
  }

  lemma DistinctParts(a: seq<Reservation>, b: seq<Reservation>)
    requires DistinctDates(a + b)
    ensures DistinctDates(a) && DistinctDates(b)
  {
    forall i, j | 0 <= i < j < |a| ensures a[i].date != a[j].date {
      assert (a + b)[i] == a[i] && (a + b)[j] == a[j];
    }
    forall i, j | 0 <= i < j < |b| ensures b[i].date != b[j].date {
      assert (a + b)[|a| + i] == b[i] && (a + b)[|a| + j] == b[j];
    }
  }

  /** In every chunk, the reservations of one date are adjacent. */
  predicate AllContiguous(chunks: seq<seq<Reservation>>) {
    forall k | 0 <= k < |chunks| :: Contiguous(chunks[k])
  }

  /** A chunk of a list of chunks with distinct dates overall has distinct dates, so its
      reservations of one date (there is at most one) are adjacent. */
  lemma {:induction false} FlattenContiguous(chunks: seq<seq<Reservation>>, k: nat)
    requires DistinctDates(Flatten(chunks)) && k < |chunks|
    ensures DistinctDates(chunks[k]) && Contiguous(chunks[k])
    decreases |chunks|
  {
    var n := |chunks| - 1;
    DistinctParts(Flatten(chunks[..n]), chunks[n]);
    if k < n {
      assert chunks[..n][k] == chunks[k];
      FlattenContiguous(chunks[..n], k);
    }
  }

  /** A reservation no earlier than every one before it extends a list that runs by day. */
  lemma SnocByDay(f: seq<Reservation>, x: Reservation)
    requires RunsByDay(f)
    requires forall y | y in f :: y.day <= x.day
    ensures RunsByDay(f + [x])
  {
    forall i, j | 0 <= i < j < |f| + 1 ensures (f + [x])[i].day <= (f + [x])[j].day {
      if j == |f| {
        assert f[i] in f;
      }
    }
  }

  /** In a list that runs by day, the last reservation is no earlier than any before it. */
  lemma LastLatest(s: seq<Reservation>, y: Reservation)
    requires RunsByDay(s) && s != [] && y in s[..|s| - 1]
    ensures y.day <= s[|s| - 1].day
  {
    var i :| 0 <= i < |s| - 1 && s[..|s| - 1][i] == y;
  }

  /** Filtering a list that runs by day gives a list that runs by day. */
  lemma {:induction false} FilterByDay(s: seq<Reservation>, p: Reservation -> bool)
    requires RunsByDay(s)
    ensures RunsByDay(Filter(s, p))
    decreases |s|
  {
    if s != [] {
      var n := |s| - 1;
      var f0 := Filter(s[..n], p);
      FilterByDay(s[..n], p);
      if p(s[n]) {
        forall y | y in f0 ensures y.day <= s[n].day {
          LastLatest(s, y);
        }
        SnocByDay(f0, s[n]);
      }
    }
  }

  /** The sorted reservations run by day. */
  lemma SortedRunsByDay(sorted: seq<Reservation>)
    requires SortedBy(sorted, SortKey)
    ensures RunsByDay(sorted)
  {
    forall i, j | 0 <= i < j < |sorted| ensures sorted[i].day <= sorted[j].day {
      assert KeyLe(SortKey(sorted[i]), SortKey(sorted[j]));
    }
  }

  /** Among dated reservations, equal days and equal date strings go together. */
  lemma DatedDaysAndDates(w: seq<Reservation>)
    requires AllDated(w)
    ensures forall i, j | 0 <= i < |w| && 0 <= j < |w| :: w[i].day == w[j].day <==> w[i].date == w[j].date
  {
    forall i, j | 0 <= i < |w| && 0 <= j < |w| ensures w[i].day == w[j].day <==> w[i].date == w[j].date {
      assert w[i] in w && w[j] in w;
      DatedSameDate(w[i], w[j]);
    }
  }

  /** A rechunked week of dated reservations is contiguous: the sorted list runs by day,
      and dated reservations share a date string exactly when they share a day. */
  lemma WeekSliceContiguous(sorted: seq<Reservation>, d: int)
    requires SortedBy(sorted, SortKey) && AllDated(sorted)
    ensures Contiguous(WeekSlice(sorted, d))
  {
    var w := WeekSlice(sorted, d);
    SortedRunsByDay(sorted);
    FilterByDay(sorted, InDays(WeekBounds(d).0, WeekBounds(d).1));
    assert AllDated(w);
    DatedDaysAndDates(w);
    SortedIsContiguous(w);
  }

  /** Both loops over the sorted list. */
  method ChunkSorted(sorted: seq<Reservation>)
    returns (chunks: seq<seq<Reservation>>, ghost weeks: seq<int>, ghost firstPass: nat)
    requires AllSupported(sorted) && SortedBy(sorted, SortKey)
    ensures |weeks| == |chunks| && firstPass <= |chunks|
    ensures forall k | 0 <= k < |chunks| ::
      chunks[k] != [] && SubseqOf(chunks[k], WeekSlice(sorted, weeks[k])) && weeks[k] - 6 >= FirstSupportedDay
    ensures forall r | r in sorted :: r in Flatten(chunks)
    ensures DistinctDates(Flatten(chunks[..firstPass]))
    ensures forall k, k' | 0 <= k < k' < firstPass :: WeekBounds(weeks[k]).1 < weeks[k']
    ensures forall k | firstPass <= k < |chunks| :: chunks[k] == WeekSlice(sorted, weeks[k])
  {
    var first, duplicates, firstWeeks := FirstPass(sorted);
    var second, secondWeeks := RechunkDuplicates(sorted, duplicates);
    Compose(sorted, first, duplicates, firstWeeks, second, secondWeeks);
    chunks := first + second;
    weeks := firstWeeks + secondWeeks;
    firstPass := |first|;
  }

  /** `chunkReservations` with the end of each week compared as a day. Every reservation
      lands in some chunk, every chunk is an order-preserving slice of the sorted list
      inside one week range, the first-pass chunks hold each date string at most once and
      come in increasing week order, and the rechunked weeks are whole week slices. The
      reservations of one date string are adjacent in every first-pass chunk, and in
      every chunk when each date string is the rendering of its day. */
  method ChunkReservations(reservations: seq<Reservation>)
    returns (chunks: seq<seq<Reservation>>, sorted: seq<Reservation>, ghost weeks: seq<int>,
      ghost firstPass: nat)
    requires AllSupported(reservations)
    ensures sorted == SortReservations(reservations)
    ensures |weeks| == |chunks| && firstPass <= |chunks|
    ensures forall k | 0 <= k < |chunks| :: chunks[k] != [] && SubseqOf(chunks[k], WeekSlice(sorted, weeks[k]))
    ensures forall k, r | 0 <= k < |chunks| && r in chunks[k] ::
      r in reservations && WeekBounds(weeks[k]).0 <= r.day <= WeekBounds(weeks[k]).1
    ensures forall r | r in reservations :: r in Flatten(chunks)
    ensures DistinctDates(Flatten(chunks[..firstPass]))
    ensures forall k, k' | 0 <= k < k' < firstPass :: WeekBounds(weeks[k]).1 < weeks[k']
    ensures forall k | firstPass <= k < |chunks| :: chunks[k] == WeekSlice(sorted, weeks[k])
    ensures forall k | 0 <= k < firstPass :: Contiguous(chunks[k])
    ensures AllDated(reservations) ==> AllContiguous(chunks)
  {
    sorted := SortReservations(reservations);
    SortedSupported(reservations);
    chunks, weeks, firstPass := ChunkSorted(sorted);
    ChunkMembers(sorted, chunks, weeks);
    SameMembers(sorted, reservations);
    forall k | 0 <= k < firstPass ensures Contiguous(chunks[k]) {
      assert chunks[..firstPass][k] == chunks[k];
      FlattenContiguous(chunks[..firstPass], k);
    }
    if AllDated(reservations) {
      forall k | firstPass <= k < |chunks| ensures Contiguous(chunks[k]) {
        WeekSliceContiguous(sorted, weeks[k]);
      }
    }
  }

  /** The cursor advance of the first loop as written: it compares the formatted date
      of each reservation with the formatted end of the week as strings. */
  function AdvanceAsWritten(days: seq<int>, dp: nat, end: string): (r: nat)
    requires dp <= |days|
    ensures dp <= r <= |days|
    decreases |days| - dp
  {
    if dp < |days| && StrLe(FormatDate(days[dp]), end) then AdvanceAsWritten(days, dp + 1, end)
    else dp
  }

  /** The cursor advance compared as days, as `ChunkReservations` does. */
  function AdvanceByDay(days: seq<int>, dp: nat, hi: int): (r: nat)
    requires dp <= |days|
    ensures dp <= r <= |days|
    ensures forall i | dp <= i < r :: days[i] <= hi
    ensures r < |days| ==> days[r] > hi
    decreases |days| - dp
  {
    if dp < |days| && days[dp] <= hi then AdvanceByDay(days, dp + 1, hi) else dp
  }

  /** The calendar date of a day, from the era, year-of-era and day-of-year split. */
  lemma CivilAt(z: int, doe: int, yoe: int, doy: int, month: int, day: int)
    requires 0 <= doe < DaysPer400Years && z + EpochShift == 5 * DaysPer400Years + doe
    requires YearOfEra(doe) == (yoe, doy) && MonthDay(doy) == (month, day)
    ensures CivilFromDays(z) == Civil(yoe + 2000 + (if month <= 2 then 1 else 0), month, day)
  {
    EraOfDay(z + EpochShift, doe);
  }

  lemma EraOfDay(n: int, doe: int)
    requires 0 <= doe < DaysPer400Years && n == 5 * DaysPer400Years + doe
    ensures n / DaysPer400Years == 5 && n % DaysPer400Years == doe
  {
  }

  lemma Dec30Of2024()
    ensures CivilFromDays(20087) == Civil(2024, 12, 30)
  {
    assert YearOfEra(9070) == (24, 304);
    assert MonthDay(304) == (12, 30);
    CivilAt(20087, 9070, 24, 304, 12, 30);
  }

  lemma Jan2Of2025()
    ensures CivilFromDays(20090) == Civil(2025, 1, 2)
  {
    assert YearOfEra(9073) == (24, 307);
    assert MonthDay(307) == (1, 2);
    CivilAt(20090, 9073, 24, 307, 1, 2);
  }

  lemma Jan4Of2025()
    ensures CivilFromDays(20092) == Civil(2025, 1, 4)
  {
    assert YearOfEra(9075) == (24, 309);
    assert MonthDay(309) == (1, 4);
    CivilAt(20092, 9075, 24, 309, 1, 4);
  }

  lemma Jan3Of2026()
    ensures CivilFromDays(20456) == Civil(2026, 1, 3)
  {
    assert YearOfEra(9439) == (25, 308);
    assert MonthDay(308) == (1, 3);
    CivilAt(20456, 9439, 25, 308, 1, 3);
  }

  lemma WeekdayOf(d: int, q: int, w: int)
    requires d + 4 == 7 * q + w && 0 <= w < 7
    ensures Weekday(d) == w
  {
  }

  /** A formatted date starts with its two-digit month and day. */
  lemma FormatDateLead(z: int)
    ensures var c := CivilFromDays(z);
      FormatDate(z)[..6] == [DigitChar(c.month / 10), DigitChar(c.month % 10), '/',
        DigitChar(c.day / 10), DigitChar(c.day % 10), '/'] && |FormatDate(z)| > 6
  {
    var c := CivilFromDays(z);
    Pad2Digits(c.month);
    Pad2Digits(c.day);
  }

  /** Strings that start with a two-digit month, '/', a two-digit day and '/' compare by
      month and then day, whatever follows. */
  lemma LeadOrder(a: string, b: string, ma: nat, da: nat, mb: nat, db: nat)
    requires ma < 100 && da < 100 && mb < 100 && db < 100
    requires ma < mb || (ma == mb && da < db)
    requires |a| > 6 && a[..6] == [DigitChar(ma / 10), DigitChar(ma % 10), '/', DigitChar(da / 10), DigitChar(da % 10), '/']
    requires |b| > 6 && b[..6] == [DigitChar(mb / 10), DigitChar(mb % 10), '/', DigitChar(db / 10), DigitChar(db % 10), '/']
    ensures StrLt(a, b) && !StrLt(b, a) && a != b
  {
    Radix10Order(ma, mb);
    Radix10Order(da, db);
    DigitCharOrder(ma / 10, mb / 10);
    DigitCharOrder(ma % 10, mb % 10);
    DigitCharOrder(da / 10, db / 10);
    DigitCharOrder(da % 10, db % 10);
    var k := if ma / 10 != mb / 10 then 0 else if ma % 10 != mb % 10 then 1
      else if da / 10 != db / 10 then 3 else 4;
    assert a[..k] == a[..6][..k] && b[..k] == b[..6][..k];
    assert a[k] == a[..6][k] && b[k] == b[..6][k];
    StrLtAt(a, b, k);
  }

  /** Formatted dates compare as strings by month and then by day; the year, which comes
      last, only decides between equal months and days. */
  lemma FormatDateOrder(x: int, y: int)
    requires var cx, cy := CivilFromDays(x), CivilFromDays(y);
      cx.month < cy.month || (cx.month == cy.month && cx.day < cy.day)
    ensures StrLt(FormatDate(x), FormatDate(y)) && !StrLt(FormatDate(y), FormatDate(x))
    ensures FormatDate(x) != FormatDate(y)
  {
    var cx, cy := CivilFromDays(x), CivilFromDays(y);
    FormatDateLead(x);
    FormatDateLead(y);
    LeadOrder(FormatDate(x), FormatDate(y), cx.month, cx.day, cy.month, cy.day);
  }

  /** The week of Monday 2024-12-30 ends on Saturday 2025-01-04 ("01/04/2025"), and
      "12/30/2024" is not at or before it as a string: the cursor as written stays where it
      is, so the first loop would process the same week forever. Compared as days it moves
      on. */
  lemma YearEndStall()
    ensures Weekday(20087) == 1 && WeekBounds(20087).1 == 20092
    ensures AdvanceAsWritten([20087], 0, FormatDate(20092)) == 0
    ensures AdvanceByDay([20087], 0, 20092) == 1
  {
    WeekdayOf(20087, 2870, 1);
    Dec30Of2024();
    Jan4Of2025();
    FormatDateOrder(20092, 20087);
  }

  /** With reservations on 2025-01-02 and 2026-01-03, the end "01/04/2025" of the first
      week is not before "01/03/2026" as a string, so the cursor as written runs past the
      second reservation, whose week then never gets a first-pass chunk. Compared as days
      the cursor stops at it. */
  lemma NextYearSkipped()
    ensures WeekBounds(20090).1 == 20092 && 20092 < 20456
    ensures AdvanceAsWritten([20090, 20456], 0, FormatDate(20092)) == 2
    ensures AdvanceByDay([20090, 20456], 0, 20092) == 1
  {
    WeekdayOf(20090, 2870, 4);
    Jan2Of2025();
    Jan4Of2025();
    Jan3Of2026();
    FormatDateOrder(20090, 20092);
    FormatDateOrder(20456, 20092);
  }
}
