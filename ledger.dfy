/** The older allocator's reservation ledger: `updateReservationArray` cuts every
    reservation piece that a new practice overlaps into the part before the practice, the
    practice itself with the remaining portion reduced, and the part after it. Times are
    minutes; `updateReservationArray` compares the "HH:MM" strings, which orders them the same way
    (`Times.TimeStringOrder`). */
module Ledger {
  import opened Common
  import opened Portions

  /** How the remaining portion of a slot is reduced by the practice's portion
      (`subtractPortions`, as written or corrected). */
  type Subtraction = (Portion, Portion) -> Option<Fraction>

  /** One entry of `reservation_time_portion`. */
  datatype Slot = Slot(start: int, end: int, remaining: Portion, coachAvailable: bool)

  /** The practice `[ps, pe)` overlaps the slot. */
  predicate Overlaps(slot: Slot, ps: int, pe: int) {
    ps < slot.end && pe > slot.start
  }

  /** The minute `t` falls in the entry's interval. */
  predicate Covers(p: Slot, t: int) {
    p.start <= t < p.end
  }

  /** The reduced remainder as the string `"<num>/<den>"` that is stored back. */
  function AsPortion(f: Fraction): Portion {
    Portion(f.num, Some(f.den))
  }

  /** The middle piece is kept when the remainder's numerator is positive; "NaN" is not. */
  predicate KeepsMiddle(r: Option<Fraction>) {
    r.Some? && r.value.num > 0
  }

  /** What one slot becomes. */
  function Pieces(slot: Slot, ps: int, pe: int, portion: Portion, sub: Subtraction): (r: seq<Slot>)
    ensures 1 <= |r| <= 3 || (|r| == 0 && Overlaps(slot, ps, pe))
    ensures forall p | p in r :: p.coachAvailable == slot.coachAvailable
  {
    if Overlaps(slot, ps, pe) then
      var rest := sub(slot.remaining, portion);
      (if ps > slot.start then [Slot(slot.start, ps, slot.remaining, slot.coachAvailable)] else [])
      + (if KeepsMiddle(rest) then [Slot(ps, pe, AsPortion(rest.value), slot.coachAvailable)] else [])
      + (if pe < slot.end then [Slot(pe, slot.end, slot.remaining, slot.coachAvailable)] else [])
    else
      [slot]
  }

  /** The new ledger: every slot's pieces, in order. */
  function Updated(slots: seq<Slot>, ps: int, pe: int, portion: Portion, sub: Subtraction): seq<Slot>
    decreases |slots|
  {
    if slots == [] then []
    else Updated(slots[..|slots| - 1], ps, pe, portion, sub) + Pieces(slots[|slots| - 1], ps, pe, portion, sub)
  }

  /** `updateReservationArray`. */
  method UpdateReservationArray(slots: seq<Slot>, ps: int, pe: int, portion: Portion, sub: Subtraction)
    returns (r: seq<Slot>)
    ensures r == Updated(slots, ps, pe, portion, sub)
  {
    r := [];
    for i := 0 to |slots|
      invariant r == Updated(slots[..i], ps, pe, portion, sub)
    {
      assert slots[..i + 1][..i] == slots[..i];
      var slot := slots[i];
      if ps < slot.end && pe > slot.start {
        var pieces := Cut(slot, ps, pe, portion, sub);
        r := r + pieces;
      } else {
        r := r + [slot];
      }
    }
    assert slots[..|slots|] == slots;
  }

  /** The pushes for one overlapped slot: the part before the practice, the practice with
      the reduced remainder when its numerator is positive, the part after it. */
  method Cut(slot: Slot, ps: int, pe: int, portion: Portion, sub: Subtraction) returns (pieces: seq<Slot>)
    requires Overlaps(slot, ps, pe)
    ensures pieces == Pieces(slot, ps, pe, portion, sub)
  {
    pieces := [];
    if ps > slot.start {
      pieces := pieces + [Slot(slot.start, ps, slot.remaining, slot.coachAvailable)];
    }
    var rest := sub(slot.remaining, portion);
    if rest.Some? && rest.value.num > 0 {
      pieces := pieces + [Slot(ps, pe, AsPortion(rest.value), slot.coachAvailable)];
    }
    if pe < slot.end {
      pieces := pieces + [Slot(pe, slot.end, slot.remaining, slot.coachAvailable)];
    }
  }

  /** The piece that records the practice window with the reduced remainder. */
  function Middle(slot: Slot, ps: int, pe: int, portion: Portion, sub: Subtraction): Slot
    requires KeepsMiddle(sub(slot.remaining, portion))
  {
    Slot(ps, pe, AsPortion(sub(slot.remaining, portion).value), slot.coachAvailable)
  }

  /** A piece that keeps the slot's portion, lies inside the slot and outside the practice. */
  predicate Outside(p: Slot, slot: Slot, ps: int, pe: int) {
    p.remaining == slot.remaining && p.coachAvailable == slot.coachAvailable
    && slot.start <= p.start < p.end <= slot.end && !Overlaps(p, ps, pe)
  }

  /** A slot the practice does not touch is kept as it is. Every piece of an overlapped
      slot is either the practice window with the reduced remainder, kept exactly when that
      remainder's numerator is positive, or a part of the slot outside the practice with
      the slot's portion; and those parts cover every minute of the slot outside the
      practice. */
  lemma PiecesSpec(slot: Slot, ps: int, pe: int, portion: Portion, sub: Subtraction)
    ensures !Overlaps(slot, ps, pe) ==> Pieces(slot, ps, pe, portion, sub) == [slot]
    ensures Overlaps(slot, ps, pe) ==>
      forall p | p in Pieces(slot, ps, pe, portion, sub) ::
        Outside(p, slot, ps, pe)
        || (KeepsMiddle(sub(slot.remaining, portion)) && p == Middle(slot, ps, pe, portion, sub))
    ensures Overlaps(slot, ps, pe) && KeepsMiddle(sub(slot.remaining, portion)) ==>
      Middle(slot, ps, pe, portion, sub) in Pieces(slot, ps, pe, portion, sub)
    ensures forall t | Covers(slot, t) && !(ps <= t < pe) ::
      exists p | p in Pieces(slot, ps, pe, portion, sub) :: Covers(p, t) && p.remaining == slot.remaining
  {
    var r := Pieces(slot, ps, pe, portion, sub);
    forall t | Covers(slot, t) && !(ps <= t < pe)
      ensures exists p | p in r :: Covers(p, t) && p.remaining == slot.remaining
    {
      if !Overlaps(slot, ps, pe) {
        assert r[0] == slot;
      } else if t < ps {
        assert r[0] == Slot(slot.start, ps, slot.remaining, slot.coachAvailable);
      } else {
        assert r[|r| - 1] == Slot(pe, slot.end, slot.remaining, slot.coachAvailable);
      }
    }
  }

  /** A piece of the new ledger is a piece of one of the old slots, and every piece of
      every old slot is in the new ledger. */
  lemma {:induction false} UpdatedMembers(slots: seq<Slot>, ps: int, pe: int, portion: Portion, sub: Subtraction)
    ensures forall p | p in Updated(slots, ps, pe, portion, sub) ::
      exists s | s in slots :: p in Pieces(s, ps, pe, portion, sub)
    ensures forall s, p | s in slots && p in Pieces(s, ps, pe, portion, sub) ::
      p in Updated(slots, ps, pe, portion, sub)
    decreases |slots|
  {
    if slots != [] {
      var init, last := slots[..|slots| - 1], slots[|slots| - 1];
      UpdatedMembers(init, ps, pe, portion, sub);
      forall p | p in Updated(slots, ps, pe, portion, sub)
        ensures exists s | s in slots :: p in Pieces(s, ps, pe, portion, sub)
      {
        if p in Updated(init, ps, pe, portion, sub) {
          var s :| s in init && p in Pieces(s, ps, pe, portion, sub);
          assert s in slots;
        } else {
          assert p in Pieces(last, ps, pe, portion, sub);
        }
      }
      forall s, p | s in slots && p in Pieces(s, ps, pe, portion, sub)
        ensures p in Updated(slots, ps, pe, portion, sub)
      {
        if s != last {
          var k :| 0 <= k < |slots| && slots[k] == s;
          assert init[k] == s;
        }
      }
    }
  }

  /** At most three entries per slot. */
  lemma {:induction false} UpdatedLength(slots: seq<Slot>, ps: int, pe: int, portion: Portion, sub: Subtraction)
    ensures |Updated(slots, ps, pe, portion, sub)| <= 3 * |slots|
    decreases |slots|
  {
    if slots != [] {
      UpdatedLength(slots[..|slots| - 1], ps, pe, portion, sub);
    }
  }

  /** The new ledger is what cutting makes of each slot, concatenated. */
  lemma {:induction false} UpdatedFlatMap(slots: seq<Slot>, ps: int, pe: int, portion: Portion, sub: Subtraction)
    ensures Updated(slots, ps, pe, portion, sub) == FlatMap(slots, s => Pieces(s, ps, pe, portion, sub))
    decreases |slots|
  {
    if slots != [] {
      UpdatedFlatMap(slots[..|slots| - 1], ps, pe, portion, sub);
    }
  }

  /** The ledger is updated slot by slot, in order. */
  lemma UpdatedAppend(a: seq<Slot>, b: seq<Slot>, ps: int, pe: int, portion: Portion, sub: Subtraction)
    ensures Updated(a + b, ps, pe, portion, sub) == Updated(a, ps, pe, portion, sub) + Updated(b, ps, pe, portion, sub)
  {
    UpdatedFlatMap(a + b, ps, pe, portion, sub);
    UpdatedFlatMap(a, ps, pe, portion, sub);
    UpdatedFlatMap(b, ps, pe, portion, sub);
    FlatMapAppend(a, b, s => Pieces(s, ps, pe, portion, sub));
  }

  /** After the update, the only entries that overlap the practice are the practice window
      itself, each carrying the reduced remainder of a slot it was cut from; every other
      entry is an old slot the practice does not touch or a part of an overlapped slot
      that keeps its portion. */
  lemma UpdatedSpec(slots: seq<Slot>, ps: int, pe: int, portion: Portion, sub: Subtraction)
    ensures forall p | p in Updated(slots, ps, pe, portion, sub) ::
      exists s | s in slots ::
        (p == s && !Overlaps(s, ps, pe))
        || (Overlaps(s, ps, pe) && Outside(p, s, ps, pe))
        || (Overlaps(s, ps, pe) && KeepsMiddle(sub(s.remaining, portion))
            && p == Middle(s, ps, pe, portion, sub))
  {
    UpdatedMembers(slots, ps, pe, portion, sub);
    forall p | p in Updated(slots, ps, pe, portion, sub)
      ensures exists s | s in slots ::
        (p == s && !Overlaps(s, ps, pe))
        || (Overlaps(s, ps, pe) && Outside(p, s, ps, pe))
        || (Overlaps(s, ps, pe) && KeepsMiddle(sub(s.remaining, portion))
            && p == Middle(s, ps, pe, portion, sub))
    {
      var s :| s in slots && p in Pieces(s, ps, pe, portion, sub);
      PiecesSpec(s, ps, pe, portion, sub);
    }
  }

  /** With the corrected subtraction and positive denominators, the practice window
      stays in the ledger exactly when the slot had more than the practice takes. */
  lemma KeepsMiddleIff(remaining: Portion, portion: Portion)
    requires RawDen(remaining, portion) > 0
    ensures KeepsMiddle(SubtractPortions(remaining, portion)) <==> RawNum(remaining, portion) > 0
  {
    SubtractPortionsSpec(remaining, portion);
  }

  /** Half a field of time from which a whole field is taken: with the subtraction as
      written the practice window stays in the ledger with the portion "1/-2"; with the
      corrected one it is dropped. */
  lemma OverbookedAsWritten()
    ensures var slot := Slot(600, 720, Portion(1, Some(2)), true);
      && Pieces(slot, 600, 720, Portion(1, None), SubtractAsWritten) == [Slot(600, 720, Portion(1, Some(-2)), true)]
      && Pieces(slot, 600, 720, Portion(1, None), SubtractPortions) == []
      && RawNum(Portion(1, Some(2)), Portion(1, None)) < 0
  {
    NegativeRemainder();
  }

  /** A ledger that the practice does not touch comes back unchanged. */
  lemma {:induction false} UpdatedUntouched(slots: seq<Slot>, ps: int, pe: int, portion: Portion, sub: Subtraction)
    requires forall s | s in slots :: !Overlaps(s, ps, pe)
    ensures Updated(slots, ps, pe, portion, sub) == slots
    decreases |slots|
  {
    if slots != [] {
      var init, last := slots[..|slots| - 1], slots[|slots| - 1];
      forall s | s in init
        ensures !Overlaps(s, ps, pe)
      {
        assert s in slots;
      }
      UpdatedUntouched(init, ps, pe, portion, sub);
      assert last in slots && Pieces(last, ps, pe, portion, sub) == [last];
      assert slots == init + [last];
    }
  }
}
