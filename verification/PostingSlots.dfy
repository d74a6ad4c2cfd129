/** The posting slots of one channel: the walk over the coming days that turns weekly
    slots into instants, and the bounded search for the first free one
    (apps/calendar/services.py). */
module PostingSlots {
  import opened Common

  // How far ahead the walk looks.
  const HORIZON_DAYS: nat := 60

  // Wall-clock times of day lie in [0, DAY).
  const DAY := 86400

  /** An active recurring slot: day of the week (0 = Monday) and wall-clock time. */
  datatype Slot = Slot(day: int, time: int)

  /** The workspace time zone: which instant a wall-clock time names, which calendar date an
      instant falls on, and which wall-clock times are clear, that is, neither skipped nor
      repeated by a change of the clock. Dates are proleptic Gregorian ordinals. */
  datatype Zone = Zone(instant: (int, int) -> int, localDate: int -> int, clear: (int, int) -> bool)

  /** A coming posting slot. It keeps its wall-clock form, which decides whether it can equal
      a stored time. */
  datatype Candidate = Candidate(at: int, clear: bool)

  /** Membership among stored times. A wall-clock time that is not clear equals no time of
      another zone (PEP 495), not even the instant it names. */
  predicate Among(x: Candidate, times: set<int>) {
    x.clear && x.at in times
  }

  /** Day of the week of a date ordinal; ordinal 1 is a Monday. */
  function Weekday(date: int): int {
    (date + 6) % 7
  }

  /** Clear times follow the wall clock, in every zone (Zones.ZonesAreOrdered): only changes of
      the clock disturb the order, and the times that they touch are not clear. */
  ghost predicate Ordered(z: Zone) {
    forall d, t, d', t' ::
      0 <= t < DAY && 0 <= t' < DAY && z.clear(d, t) && z.clear(d', t') && (d < d' || (d == d' && t < t')) ==>
        z.instant(d, t) < z.instant(d', t')
  }

  /** The slot table as the database hands it over: ordered by day then time, without
      repeats (apps/calendar/models.py, unique_together). */
  ghost predicate WellOrdered(slots: seq<Slot>) {
    && (forall i :: 0 <= i < |slots| ==> 0 <= slots[i].time < DAY)
    && (forall i, j :: 0 <= i < j < |slots| ==>
          slots[i].day < slots[j].day || (slots[i].day == slots[j].day && slots[i].time < slots[j].time))
  }

  // ---------------------------------------------------------------------
  // The walk and what it lists
  // ---------------------------------------------------------------------

  predicate Matches(z: Zone, s: Slot, date: int, after: int) {
    s.day == Weekday(date) && z.instant(date, s.time) > after
  }

  function CandidateOn(z: Zone, s: Slot, date: int): Candidate {
    Candidate(z.instant(date, s.time), z.clear(date, s.time))
  }

  /** The slots one day contributes. */
  function DaySlots(z: Zone, slots: seq<Slot>, date: int, after: int): seq<Candidate> {
    if slots == [] then []
    else
      var n := |slots| - 1;
      DaySlots(z, slots[..n], date, after)
      + (if Matches(z, slots[n], date, after) then [CandidateOn(z, slots[n], date)] else [])
  }

  /** The slots of the dates in [first, past). */
  function DaysSlots(z: Zone, slots: seq<Slot>, first: int, past: int, after: int): seq<Candidate>
    decreases past - first
  {
    if past <= first then []
    else DaysSlots(z, slots, first, past - 1, after) + DaySlots(z, slots, past - 1, after)
  }

  /** Every slot after `after` within the horizon, in walk order. */
  function Upcoming(z: Zone, slots: seq<Slot>, after: int): seq<Candidate> {
    DaysSlots(z, slots, z.localDate(after), z.localDate(after) + HORIZON_DAYS, after)
  }

  function Prefix<T>(s: seq<T>, n: nat): seq<T> {
    if n < |s| then s[..n] else s
  }

  lemma PrefixOfPrefix<T>(s: seq<T>, t: seq<T>, n: nat)
    requires s <= t && n <= |s|
    ensures Prefix(s, n) == Prefix(t, n)
  {
  }

  lemma {:induction false} DayPrefix(z: Zone, slots: seq<Slot>, k: nat, date: int, after: int)
    requires k <= |slots|
    ensures DaySlots(z, slots[..k], date, after) <= DaySlots(z, slots, date, after)
  {
    if k < |slots| {
      var n := |slots| - 1;
      DayPrefix(z, slots[..n], k, date, after);
      assert slots[..n][..k] == slots[..k];
    } else {
      assert slots[..k] == slots;
    }
  }

  lemma {:induction false} DaysPrefix(z: Zone, slots: seq<Slot>, first: int, k: int, past: int, after: int)
    requires first <= k <= past
    ensures DaysSlots(z, slots, first, k, after) <= DaysSlots(z, slots, first, past, after)
    decreases past - k
  {
    if k < past {
      var prior := DaysSlots(z, slots, first, past - 1, after);
      DaysPrefix(z, slots, first, k, past - 1, after);
      assert DaysSlots(z, slots, first, past, after)[..|prior|] == prior;
    }
  }

  /** One day of the walk; `full` says that it ended with the early return. */
  method WalkDay(z: Zone, slots: seq<Slot>, date: int, after: int, count: nat, found: seq<Candidate>)
    returns (results: seq<Candidate>, full: bool)
    requires found == [] || |found| < count
    ensures var all := found + DaySlots(z, slots, date, after);
            var limit := if count == 0 then 1 else count;
            results == Prefix(all, limit) && full == (|all| >= limit)
  {
    ghost var limit := if count == 0 then 1 else count;
    results := found;
    var i := 0;
    while i < |slots|
      invariant 0 <= i <= |slots|
      invariant results == found + DaySlots(z, slots[..i], date, after)
      invariant |results| < limit
    {
      var slot := slots[i];
      assert slots[..i + 1][..i] == slots[..i];
      if slot.day == Weekday(date) {
        var slotDt := CandidateOn(z, slot, date);
        if slotDt.at > after {
          results := results + [slotDt];
          if |results| >= count {
            DayPrefix(z, slots, i + 1, date, after);
            return results, true;
          }
        }
      }
      i := i + 1;
    }
    assert slots[..|slots|] == slots;
    full := false;
  }

  /** The walk itself, with its early return once `count` instants are found. However
      many are asked for, the answer is a prefix of one fixed list, so asking again for
      more only ever extends the answer. (A `count` of 0 still yields one instant.) */
  method NextSlotDatetimes(z: Zone, slots: seq<Slot>, after: int, count: nat) returns (results: seq<Candidate>)
    ensures results == Prefix(Upcoming(z, slots, after), if count == 0 then 1 else count)
  {
    results := [];
    var currentDate := z.localDate(after);
    var dayOffset := 0;
    while dayOffset < HORIZON_DAYS
      invariant 0 <= dayOffset <= HORIZON_DAYS
      invariant results == DaysSlots(z, slots, currentDate, currentDate + dayOffset, after)
      invariant results == [] || |results| < count
    {
      var full: bool;
      results, full := WalkDay(z, slots, currentDate + dayOffset, after, count, results);
      dayOffset := dayOffset + 1;
      if full {
        ghost var past := currentDate + dayOffset;
        DaysPrefix(z, slots, currentDate, past, currentDate + HORIZON_DAYS, after);
        PrefixOfPrefix(DaysSlots(z, slots, currentDate, past, after), Upcoming(z, slots, after),
                       if count == 0 then 1 else count);
        return;
      }
    }
  }

  // ---------------------------------------------------------------------
  // What the list contains, and in which order
  // ---------------------------------------------------------------------

  ghost predicate ListedOn(z: Zone, slots: seq<Slot>, date: int, after: int, x: Candidate) {
    exists s :: s in slots && Matches(z, s, date, after) && x == CandidateOn(z, s, date)
  }

  /** In other words: some slot of that day of the week lies after `after`, and this is it. */
  ghost predicate SlotOn(z: Zone, slots: seq<Slot>, date: int, after: int, x: Candidate) {
    exists s :: s in slots && s.day == (date - 1) % 7 && z.instant(date, s.time) > after
                && x == Candidate(z.instant(date, s.time), z.clear(date, s.time))
  }

  lemma ListedOnMeans(z: Zone, slots: seq<Slot>, date: int, after: int, x: Candidate)
    ensures ListedOn(z, slots, date, after, x) <==> SlotOn(z, slots, date, after, x)
  {
    if s :| s in slots && Matches(z, s, date, after) && x == CandidateOn(z, s, date) {
      assert s.day == (date - 1) % 7;
    }
    if s :| s in slots && s.day == (date - 1) % 7 && z.instant(date, s.time) > after
            && x == Candidate(z.instant(date, s.time), z.clear(date, s.time)) {
      assert Matches(z, s, date, after);
    }
  }

  lemma {:induction false} DayMembers(z: Zone, slots: seq<Slot>, date: int, after: int)
    ensures forall x :: x in DaySlots(z, slots, date, after) <==> ListedOn(z, slots, date, after, x)
  {
    if slots != [] {
      var n := |slots| - 1;
      DayMembers(z, slots[..n], date, after);
      assert slots == slots[..n] + [slots[n]];
      forall x ensures x in DaySlots(z, slots, date, after) <==> ListedOn(z, slots, date, after, x) {
        if ListedOn(z, slots[..n], date, after, x) {
          var s :| s in slots[..n] && Matches(z, s, date, after) && x == CandidateOn(z, s, date);
          assert s in slots;
        }
      }
    }
  }

  lemma {:induction false} DaysMembers(z: Zone, slots: seq<Slot>, first: int, past: int, after: int)
    ensures forall x :: x in DaysSlots(z, slots, first, past, after)
                        <==> exists d :: first <= d < past && ListedOn(z, slots, d, after, x)
    decreases past - first
  {
    if first < past {
      DaysMembers(z, slots, first, past - 1, after);
      DayMembers(z, slots, past - 1, after);
    }
  }

  /** The clear slots of a list ascend. */
  ghost predicate ClearAscend(h: seq<Candidate>) {
    forall i, j :: 0 <= i < j < |h| && h[i].clear && h[j].clear ==> h[i].at < h[j].at
  }

  ghost predicate AllClear(h: seq<Candidate>) {
    forall i :: 0 <= i < |h| ==> h[i].clear
  }

  lemma AppendAscending(s: seq<Candidate>, t: seq<Candidate>)
    requires ClearAscend(s) && ClearAscend(t)
    requires forall i, j :: 0 <= i < |s| && 0 <= j < |t| && s[i].clear && t[j].clear ==> s[i].at < t[j].at
    ensures ClearAscend(s + t)
  {
  }

  lemma {:induction false} DayAscending(z: Zone, slots: seq<Slot>, date: int, after: int)
    requires Ordered(z) && WellOrdered(slots)
    ensures ClearAscend(DaySlots(z, slots, date, after))
  {
    if slots != [] {
      var n := |slots| - 1;
      DayAscending(z, slots[..n], date, after);
      DayMembers(z, slots[..n], date, after);
      var prior := DaySlots(z, slots[..n], date, after);
      if Matches(z, slots[n], date, after) {
        var x := CandidateOn(z, slots[n], date);
        forall i | 0 <= i < |prior| && prior[i].clear && x.clear ensures prior[i].at < x.at {
          assert prior[i] in prior;
          var s :| s in slots[..n] && Matches(z, s, date, after) && prior[i] == CandidateOn(z, s, date);
          var k :| 0 <= k < n && slots[..n][k] == s;
          assert slots[k] == s;
        }
        AppendAscending(prior, [x]);
      }
    }
  }

  lemma {:induction false} DaysAscending(z: Zone, slots: seq<Slot>, first: int, past: int, after: int)
    requires Ordered(z) && WellOrdered(slots)
    ensures ClearAscend(DaysSlots(z, slots, first, past, after))
    decreases past - first
  {
    if first < past {
      var last := past - 1;
      DaysAscending(z, slots, first, last, after);
      DayAscending(z, slots, last, after);
      DaysMembers(z, slots, first, last, after);
      DayMembers(z, slots, last, after);
      var prior, today := DaysSlots(z, slots, first, last, after), DaySlots(z, slots, last, after);
      forall i, j | 0 <= i < |prior| && 0 <= j < |today| && prior[i].clear && today[j].clear
        ensures prior[i].at < today[j].at
      {
        assert prior[i] in prior && today[j] in today;
        var d :| first <= d < last && ListedOn(z, slots, d, after, prior[i]);
        var s :| s in slots && Matches(z, s, d, after) && prior[i] == CandidateOn(z, s, d);
        var t :| t in slots && Matches(z, t, last, after) && today[j] == CandidateOn(z, t, last);
      }
      AppendAscending(prior, today);
    }
  }

  /** The list is gap-free: it names exactly the slots that lie after `after` on the dates
      walked. Unless the zone repeats earlier dates, those are all that lie after it. */
  lemma UpcomingIsExact(z: Zone, slots: seq<Slot>, after: int)
    ensures var first := z.localDate(after);
            forall x :: x in Upcoming(z, slots, after)
                        <==> exists d :: first <= d < first + 60 && SlotOn(z, slots, d, after, x)
    ensures var first := z.localDate(after);
            WellOrdered(slots) && (forall d, t :: d < first && 0 <= t < DAY ==> z.instant(d, t) <= after) ==>
              forall x :: x in Upcoming(z, slots, after)
                          <==> exists d :: d < first + 60 && SlotOn(z, slots, d, after, x)
  {
    var first := z.localDate(after);
    DaysMembers(z, slots, first, first + HORIZON_DAYS, after);
    forall d, x ensures ListedOn(z, slots, d, after, x) <==> SlotOn(z, slots, d, after, x) {
      ListedOnMeans(z, slots, d, after, x);
    }
    forall x, d | WellOrdered(slots) && (forall d, t :: d < first && 0 <= t < DAY ==> z.instant(d, t) <= after)
                  && d < first + HORIZON_DAYS && SlotOn(z, slots, d, after, x)
      ensures first <= d
    {
      var s :| s in slots && s.day == (d - 1) % 7 && z.instant(d, s.time) > after
               && x == Candidate(z.instant(d, s.time), z.clear(d, s.time));
    }
  }

  /** And its clear slots ascend strictly, in every zone. */
  lemma UpcomingAscends(z: Zone, slots: seq<Slot>, after: int)
    requires Ordered(z) && WellOrdered(slots)
    ensures ClearAscend(Upcoming(z, slots, after))
  {
    var first := z.localDate(after);
    DaysAscending(z, slots, first, first + HORIZON_DAYS, after);
  }

  lemma UpcomingIsLater(z: Zone, slots: seq<Slot>, after: int)
    ensures forall x :: x in Upcoming(z, slots, after) ==> x.at > after
  {
    UpcomingIsExact(z, slots, after);
    forall x, d | SlotOn(z, slots, d, after, x) ensures x.at > after {
      var s :| s in slots && z.instant(d, s.time) > after
               && x == Candidate(z.instant(d, s.time), z.clear(d, s.time));
    }
  }

  // ---------------------------------------------------------------------
  // The bounded search for a free slot
  // ---------------------------------------------------------------------

  /** The first slot of a list that is not found among the occupied times. */
  function FirstFree(h: seq<Candidate>, occupied: set<int>): Option<Candidate> {
    if h == [] then None
    else if !Among(h[0], occupied) then Some(h[0])
    else FirstFree(h[1..], occupied)
  }

  /** The search looks at one more candidate than there are occupied instants. */
  function BoundedFree(h: seq<Candidate>, occupied: set<int>): Option<Candidate> {
    FirstFree(Prefix(h, |occupied| + 1), occupied)
  }

  /** Scanning those candidates. */
  method SearchFree(z: Zone, slots: seq<Slot>, after: int, occupied: set<int>) returns (r: Option<Candidate>)
    ensures r == BoundedFree(Upcoming(z, slots, after), occupied)
  {
    var candidates := NextSlotDatetimes(z, slots, after, |occupied| + 1);
    var i := 0;
    while i < |candidates|
      invariant 0 <= i <= |candidates|
      invariant FirstFree(candidates, occupied) == FirstFree(candidates[i..], occupied)
    {
      if !Among(candidates[i], occupied) {
        return Some(candidates[i]);
      }
      assert candidates[i..][1..] == candidates[i + 1..];
      i := i + 1;
    }
    return None;
  }

  /** Looking at that many loses nothing. */
  lemma BoundedSearchIsExact(h: seq<Candidate>, occupied: set<int>)
    requires ClearAscend(h)
    ensures BoundedFree(h, occupied) == FirstFree(h, occupied)
  {
    var n := |occupied| + 1;
    if n < |h| {
      if k :| 0 <= k < n && !Among(h[k], occupied) {
        FreeInPrefix(h, n, occupied, k);
      } else {
        TooManyTaken(h[..n], occupied);
      }
    }
  }

  /** Pigeonhole: there are no more taken slots than occupied instants. */
  lemma TooManyTaken(h: seq<Candidate>, occupied: set<int>)
    requires ClearAscend(h) && forall i :: 0 <= i < |h| ==> Among(h[i], occupied)
    ensures |h| <= |occupied|
  {
    var ats := seq(|h|, i requires 0 <= i < |h| => h[i].at);
    DistinctFits(ats, occupied);
  }

  lemma {:induction false} FreeInPrefix(h: seq<Candidate>, n: nat, occupied: set<int>, k: nat)
    requires k < n <= |h| && !Among(h[k], occupied)
    ensures FirstFree(h[..n], occupied) == FirstFree(h, occupied)
  {
    if Among(h[0], occupied) {
      assert h[..n][1..] == h[1..][..n - 1];
      FreeInPrefix(h[1..], n - 1, occupied, k - 1);
    }
  }

  /** The slot at position i is the first one that is not found occupied. */
  ghost predicate FirstAt(h: seq<Candidate>, occupied: set<int>, i: int) {
    0 <= i < |h| && !Among(h[i], occupied) && forall j :: 0 <= j < i ==> Among(h[j], occupied)
  }

  /** What the search of the whole list answers. */
  lemma {:induction false} FirstFreeMeaning(h: seq<Candidate>, occupied: set<int>)
    ensures FirstFree(h, occupied).None? <==> forall i :: 0 <= i < |h| ==> Among(h[i], occupied)
    ensures FirstFree(h, occupied).Some? ==> exists i :: FirstAt(h, occupied, i) && h[i] == FirstFree(h, occupied).value
  {
    if h != [] {
      FirstFreeMeaning(h[1..], occupied);
      if Among(h[0], occupied) {
        if FirstFree(h, occupied).Some? {
          var i :| FirstAt(h[1..], occupied, i) && h[1..][i] == FirstFree(h[1..], occupied).value;
          assert FirstAt(h, occupied, i + 1);
        } else {
          assert forall i :: 0 < i < |h| ==> h[i] == h[1..][i - 1];
        }
      } else {
        assert FirstAt(h, occupied, 0);
      }
    }
  }

  /** The bounded search answers with a slot of the list that it did not find occupied. */
  lemma BoundedFreeIsListed(h: seq<Candidate>, occupied: set<int>)
    ensures var r := BoundedFree(h, occupied);
            r.Some? ==> r.value in h && !Among(r.value, occupied)
  {
    var p := Prefix(h, |occupied| + 1);
    FirstFreeMeaning(p, occupied);
    if BoundedFree(h, occupied).Some? {
      var i :| FirstAt(p, occupied, i) && p[i] == BoundedFree(h, occupied).value;
      assert h[i] == p[i];
    }
  }
}
