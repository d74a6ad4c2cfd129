/** Slots whose wall-clock time a change of the clock skips or repeats. They are never found
    occupied, so they are what can be booked twice (apps/calendar/services.py). */
module ClockChanges {
  import opened Common
  import opened PostingSlots
  import opened Zones
  import opened QueueState
  import opened QueueSafety
  import opened Ladder

  // ---------------------------------------------------------------------
  // Clear slots are safe
  // ---------------------------------------------------------------------

  lemma ClearSlotIsSafe(c: State, now: int, post: PostId)
    requires AllClear(UpcomingSlots(c, now))
    ensures SlotSafe(c, now, post)
  {
    SlotFoundFacts(c, now, post);
    if SlotFound(c, now, post).Some? {
      var i :| 0 <= i < |UpcomingSlots(c, now)| && UpcomingSlots(c, now)[i] == SlotFound(c, now, post).value;
    }
  }

  lemma ClearPlacesSafely(c: State, now: int, listing: seq<PostId>, k: Key)
    requires AllClear(UpcomingSlots(c, now))
    ensures PlacesSafely(c, now, listing, k)
  {
    ClearSlotIsSafe(c, now, k.post);
  }

  // ---------------------------------------------------------------------
  // A slot that is not clear
  // ---------------------------------------------------------------------

  lemma {:induction false} FirstFreeAt(h: seq<Candidate>, occupied: set<int>, i: nat)
    requires FirstAt(h, occupied, i)
    ensures FirstFree(h, occupied) == Some(h[i])
  {
    if i > 0 {
      assert Among(h[0], occupied);
      assert forall j :: 0 <= j < i - 1 ==> h[1..][j] == h[j + 1];
      FirstFreeAt(h[1..], occupied, i - 1);
    }
  }

  /** If the first coming slot is not clear and a post holds its instant, adding another post
      books it again, and so does prioritizing it, without any ladder. */
  lemma UnclearSlotIsBookedTwice(c: State, now: int, listing: seq<PostId>, k: Key, q: PostId)
    requires NoDoubleBooking(c.rows, now) && UpcomingSlots(c, now) != [] && !UpcomingSlots(c, now)[0].clear
    requires q in c.rows && Holds(c.rows[q], now) && c.rows[q].at == Some(UpcomingSlots(c, now)[0].at)
    requires IsLive(c, k.post) && k.post != q
    ensures !FirstSlotQueued(c, now, listing, k) && Prioritized(c, now, listing, k) == AddedNext(c, now, k)
    ensures AddedNext(c, now, k).Some? && !NoDoubleBooking(AddedNext(c, now, k).value.rows, now)
  {
    var h, taken := UpcomingSlots(c, now), Occupied(c.rows, now, {k.post});
    assert SlotFound(c, now, k.post) == Some(h[0]);
    assert h[0].at in taken by {
      assert q !in {k.post} && c.rows[q].at.value == h[0].at;
    }
    PrioritizeIsAdd(c, now, listing, k);
    AddSafeIff(c, now, k);
  }

  // A slot on Sundays at 01:30, and one at 02:10.
  const HALF_PAST_ONE := Slot(6, 5400)
  const TEN_PAST_TWO := Slot(6, 7800)

  // 02:00 on date 7, a Sunday, and an hour.
  const TWO_O_CLOCK := 7 * DAY + 7200
  const HOUR := 3600

  /** The first slot a walk finds on its first day. */
  lemma OneSlotToday(z: Zone, s: Slot, after: int)
    requires Matches(z, s, z.localDate(after), after)
    ensures Upcoming(z, [s], after) != [] && Upcoming(z, [s], after)[0] == CandidateOn(z, s, z.localDate(after))
  {
    var today := z.localDate(after);
    DaysPrefix(z, [s], today, today + 1, today + HORIZON_DAYS, after);
    assert [s][..0] == [];
    assert DaySlots(z, [s], today, after) == [CandidateOn(z, s, today)];
    assert DaysSlots(z, [s], today, today, after) == [];
  }

  /** On that Sunday clocks are moved by `shift`; a slot that this skips or repeats. */
  lemma ChangingSunday(shift: int, s: Slot)
    requires s.day == 6 && 0 < s.time < DAY
    requires var w := 7 * DAY + s.time; TWO_O_CLOCK <= w < TWO_O_CLOCK + shift || TWO_O_CLOCK + shift <= w < TWO_O_CLOCK
    ensures var z := OneChange(TWO_O_CLOCK, 0, shift);
            && Ordered(z) && z.localDate(7 * DAY) == 7 && Matches(z, s, 7, 7 * DAY)
            && CandidateOn(z, s, 7) == Candidate(7 * DAY + s.time, false)
  {
    var t := Table(0, [Change(TWO_O_CLOCK, shift)]);
    OneChangeIs(TWO_O_CLOCK, 0, shift, 7 * DAY + s.time);
    ZonesAreOrdered(t);
    assert Era(t, 7 * DAY) == 0;
  }

  /** A channel with that one slot, a post q on it, and a post p without a time. */
  function Crossing(shift: int, s: Slot, p: PostId, q: PostId): State {
    State(OneChange(TWO_O_CLOCK, 0, shift), [s], map[],
          map[p := Row(Scheduled, None), q := Row(Scheduled, Some(7 * DAY + s.time))], map[], map[])
  }

  lemma CrossingBooksTwice(shift: int, s: Slot, p: PostId, q: PostId)
    requires p != q && s.day == 6 && 0 < s.time < DAY
    requires var w := 7 * DAY + s.time; TWO_O_CLOCK <= w < TWO_O_CLOCK + shift || TWO_O_CLOCK + shift <= w < TWO_O_CLOCK
    ensures var c, now, k := Crossing(shift, s, p, q), 7 * DAY, Key(0, p);
            && Orderly(c, now) && NoDoubleBooking(c.rows, now)
            && Prioritized(c, now, [], k) == AddedNext(c, now, k) && AddedNext(c, now, k).Some?
            && !NoDoubleBooking(AddedNext(c, now, k).value.rows, now)
  {
    var c, now := Crossing(shift, s, p, q), 7 * DAY;
    ChangingSunday(shift, s);
    ZonesAreOrderly(c, now);
    OneSlotToday(c.zone, s, now);
    UnclearSlotIsBookedTwice(c, now, [], Key(0, p), q);
  }

  /** At 02:00 clocks go back to 01:00, and the slot is 01:30. */
  lemma FallBackBooksTwice(p: PostId, q: PostId)
    requires p != q
    ensures var c, now := Crossing(-HOUR, HALF_PAST_ONE, p, q), 7 * DAY;
            && NoDoubleBooking(c.rows, now) && AddedNext(c, now, Key(0, p)).Some?
            && !NoDoubleBooking(AddedNext(c, now, Key(0, p)).value.rows, now)
  {
    CrossingBooksTwice(-HOUR, HALF_PAST_ONE, p, q);
  }

  /** At 02:00 they go forward to 03:00, and the slot is 02:10. */
  lemma SpringForwardBooksTwice(p: PostId, q: PostId)
    requires p != q
    ensures var c, now := Crossing(HOUR, TEN_PAST_TWO, p, q), 7 * DAY;
            && NoDoubleBooking(c.rows, now) && Prioritized(c, now, [], Key(0, p)).Some?
            && !NoDoubleBooking(Prioritized(c, now, [], Key(0, p)).value.rows, now)
  {
    CrossingBooksTwice(HOUR, TEN_PAST_TWO, p, q);
  }

  // ---------------------------------------------------------------------
  // Which slot tables are safe
  // ---------------------------------------------------------------------

  /** No state of a channel with these slots lets an addition book an instant twice. */
  ghost predicate AddsSafely(z: Zone, slots: seq<Slot>, now: int) {
    forall c: State, k: Key :: c.zone == z && c.slots == slots && NoDoubleBooking(c.rows, now)
                               && AddedNext(c, now, k).Some? ==>
      NoDoubleBooking(AddedNext(c, now, k).value.rows, now)
  }

  ghost predicate PrioritizesSafely(z: Zone, slots: seq<Slot>, now: int) {
    forall c: State, listing: seq<PostId>, k: Key ::
      c.zone == z && c.slots == slots && NoDoubleBooking(c.rows, now) && IsListing(c.entries, k.queue, listing)
      && Prioritized(c, now, listing, k).Some? ==>
        NoDoubleBooking(Prioritized(c, now, listing, k).value.rows, now)
  }

  /** Both do, whatever the channel's posts, exactly when every coming slot is clear. */
  lemma SafeTablesIff(z: Zone, slots: seq<Slot>, now: int)
    requires Ordered(z) && WellOrdered(slots)
    ensures AddsSafely(z, slots, now) <==> AllClear(Upcoming(z, slots, now))
    ensures PrioritizesSafely(z, slots, now) <==> AllClear(Upcoming(z, slots, now))
  {
    if AllClear(Upcoming(z, slots, now)) {
      ClearTablesAreSafe(z, slots, now);
    } else {
      var h := Upcoming(z, slots, now);
      UpcomingAscends(z, slots, now);
      var i := FirstUnclear(h);
      UnclearTablesAreNot(z, slots, now, h, i);
    }
  }

  lemma ClearTablesAreSafe(z: Zone, slots: seq<Slot>, now: int)
    requires Ordered(z) && WellOrdered(slots) && AllClear(Upcoming(z, slots, now))
    ensures AddsSafely(z, slots, now) && PrioritizesSafely(z, slots, now)
  {
    forall c: State, k: Key | c.zone == z && c.slots == slots && NoDoubleBooking(c.rows, now) && AddedNext(c, now, k).Some?
      ensures NoDoubleBooking(AddedNext(c, now, k).value.rows, now)
    {
      ClearSlotIsSafe(c, now, k.post);
      AddSafeIff(c, now, k);
    }
    forall c: State, listing: seq<PostId>, k: Key |
      c.zone == z && c.slots == slots && NoDoubleBooking(c.rows, now) && IsListing(c.entries, k.queue, listing)
      && Prioritized(c, now, listing, k).Some?
      ensures NoDoubleBooking(Prioritized(c, now, listing, k).value.rows, now)
    {
      ZonesAreOrderly(c, now);
      ClearPlacesSafely(c, now, listing, k);
      PrioritizeSafeIff(c, now, listing, k);
    }
  }

  lemma {:induction false} FirstUnclear(h: seq<Candidate>) returns (i: nat)
    requires !AllClear(h)
    ensures i < |h| && !h[i].clear && AllClear(h[..i])
  {
    if !h[0].clear {
      i := 0;
    } else {
      assert !AllClear(h[1..]) by {
        var j :| 0 <= j < |h| && !h[j].clear;
        assert h[1..][j - 1] == h[j];
      }
      var j := FirstUnclear(h[1..]);
      i := j + 1;
      forall n | 0 <= n < i ensures h[..i][n].clear {
        assert n > 0 ==> h[..i][n] == h[1..][..j][n - 1];
      }
    }
  }

  ghost predicate HeldBefore(h: seq<Candidate>, i: nat)
    requires i < |h|
  {
    exists p :: 0 <= p < i && h[p].at == h[i].at
  }

  /** One post on each slot up to the first that is not clear, and one more without a time. */
  ghost function Crowd(h: seq<Candidate>, i: nat): map<PostId, Row>
    requires i < |h|
  {
    map p | 0 <= p <= i + 1 && (p == i ==> !HeldBefore(h, i)) ::
      Row(Scheduled, if p == i + 1 then None else Some(h[p].at))
  }

  lemma CrowdIsApart(h: seq<Candidate>, i: nat, now: int)
    requires i < |h| && ClearAscend(h) && AllClear(h[..i])
    ensures NoDoubleBooking(Crowd(h, i), now)
  {
    forall p, q | 0 <= p < q < i ensures h[p].at != h[q].at {
      assert h[..i][p].clear && h[..i][q].clear;
    }
  }

  lemma CrowdTakes(h: seq<Candidate>, i: nat, now: int, j: nat)
    requires j <= i < |h| && forall n :: 0 <= n < |h| ==> h[n].at > now
    ensures h[j].at in Occupied(Crowd(h, i), now, {i + 1})
  {
    var rows := Crowd(h, i);
    if j == i && HeldBefore(h, i) {
      var p :| 0 <= p < i && h[p].at == h[i].at;
      assert p in rows && Holds(rows[p], now) && p !in {i + 1} && rows[p].at.value == h[j].at;
    } else {
      assert j in rows && Holds(rows[j], now) && j !in {i + 1} && rows[j].at.value == h[j].at;
    }
  }

  /** The search passes all the clear slots over and finds the one that is not. */
  lemma CrowdFindsUnclear(h: seq<Candidate>, i: nat, now: int)
    requires i < |h| && !h[i].clear && AllClear(h[..i]) && forall n :: 0 <= n < |h| ==> h[n].at > now
    ensures FirstAt(h, Occupied(Crowd(h, i), now, {i + 1}), i)
  {
    forall j | 0 <= j < i ensures Among(h[j], Occupied(Crowd(h, i), now, {i + 1})) {
      assert h[..i][j].clear;
      CrowdTakes(h, i, now, j);
    }
  }

  lemma CrowdIsBookedTwice(c: State, now: int, h: seq<Candidate>, i: nat)
    requires h == UpcomingSlots(c, now) && ClearAscend(h) && i < |h| && !h[i].clear && AllClear(h[..i])
    requires c.rows == Crowd(h, i) && NoDoubleBooking(c.rows, now)
    ensures AddedNext(c, now, Key(0, i + 1)).Some?
    ensures !NoDoubleBooking(AddedNext(c, now, Key(0, i + 1)).value.rows, now)
  {
    var taken := Occupied(c.rows, now, {i + 1});
    UpcomingIsLater(c.zone, c.slots, now);
    assert forall n :: 0 <= n < |h| ==> h[n] in h;
    CrowdFindsUnclear(h, i, now);
    CrowdTakes(h, i, now, i);
    FirstFreeAt(h, taken, i);
    BoundedSearchIsExact(h, taken);
    AddSafeIff(c, now, Key(0, i + 1));
  }

  lemma UnclearTablesAreNot(z: Zone, slots: seq<Slot>, now: int, h: seq<Candidate>, i: nat)
    requires h == Upcoming(z, slots, now) && ClearAscend(h) && i < |h| && !h[i].clear && AllClear(h[..i])
    ensures !AddsSafely(z, slots, now) && !PrioritizesSafely(z, slots, now)
  {
    var c, k := State(z, slots, map[], Crowd(h, i), map[], map[]), Key(0, i + 1);
    CrowdIsApart(h, i, now);
    CrowdIsBookedTwice(c, now, h, i);
    PrioritizeIsAdd(c, now, [], k);
    assert IsListing(c.entries, k.queue, []);
  }
}
