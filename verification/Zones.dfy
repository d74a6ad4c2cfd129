/** Time zones: a first offset and dated changes of it. What makes a wall-clock time clear, and
    that clear times follow the wall clock (apps/calendar/services.py; PEP 495). */
module Zones {
  import opened PostingSlots

  /** From the instant `at` on, clocks are `offset` ahead. */
  datatype Change = Change(at: int, offset: int)

  datatype Table = Table(first: int, changes: seq<Change>)

  /** The offset after n changes. */
  function Offset(t: Table, n: nat): int
    requires n <= |t.changes|
  {
    if n == 0 then t.first else t.changes[n - 1].offset
  }

  /** A change skips or repeats the wall-clock times between these two. */
  function Early(t: Table, n: nat): int
    requires n < |t.changes|
  {
    var a, b := Offset(t, n), Offset(t, n + 1);
    t.changes[n].at + (if a < b then a else b)
  }

  function Late(t: Table, n: nat): int
    requires n < |t.changes|
  {
    var a, b := Offset(t, n), Offset(t, n + 1);
    t.changes[n].at + (if a < b then b else a)
  }

  predicate Touches(t: Table, n: nat, w: int)
    requires n < |t.changes|
  {
    Early(t, n) <= w < Late(t, n)
  }

  predicate Clear(t: Table, w: int) {
    forall n :: 0 <= n < |t.changes| ==> !Touches(t, n, w)
  }

  ghost predicate Follows(t: Table, i: int, j: int)
    requires 0 <= i < j < |t.changes|
  {
    t.changes[i].at < t.changes[j].at && Late(t, i) <= Early(t, j)
  }

  /** Changes come in the order of time, and what they skip or repeat lies apart. */
  ghost predicate Spaced(t: Table) {
    forall i, j :: 0 <= i < j < |t.changes| ==> Follows(t, i, j)
  }

  /** Where x belongs among ascending bounds: the number of those it has reached. */
  function Bisect(bounds: seq<int>, x: int): (n: nat)
    ensures n <= |bounds| && (n > 0 ==> bounds[n - 1] <= x) && (n < |bounds| ==> x < bounds[n])
  {
    if bounds == [] then 0
    else if bounds[|bounds| - 1] <= x then |bounds|
    else Bisect(bounds[..|bounds| - 1], x)
  }

  /** The number of changes before an instant. */
  function Era(t: Table, a: int): (n: nat)
    ensures n <= |t.changes|
    ensures (n > 0 ==> t.changes[n - 1].at <= a) && (n < |t.changes| ==> a < t.changes[n].at)
  {
    Bisect(seq(|t.changes|, i requires 0 <= i < |t.changes| => t.changes[i].at), a)
  }

  /** The number of changes before a wall-clock time, at the first time it is shown. */
  function WallEra(t: Table, w: int): (n: nat)
    ensures n <= |t.changes|
    ensures (n > 0 ==> Late(t, n - 1) <= w) && (n < |t.changes| ==> w < Late(t, n))
  {
    Bisect(seq(|t.changes|, i requires 0 <= i < |t.changes| => Late(t, i)), w)
  }

  /** What the wall clock reads at an instant. */
  function Reading(t: Table, a: int): int {
    a + Offset(t, Era(t, a))
  }

  /** The instant that a wall-clock time names; of two it is the first, and a skipped time is
      counted on from before the change. */
  function Instant(t: Table, w: int): int {
    w - Offset(t, WallEra(t, w))
  }

  function ZoneOf(t: Table): Zone {
    Zone((d, time) => Instant(t, d * DAY + time), a => Reading(t, a) / DAY, (d, time) => Clear(t, d * DAY + time))
  }

  lemma EraIs(t: Table, a: int, n: nat)
    requires Spaced(t) && n <= |t.changes|
    requires (n > 0 ==> t.changes[n - 1].at <= a) && (n < |t.changes| ==> a < t.changes[n].at)
    ensures Era(t, a) == n
  {
    var m := Era(t, a);
    assert m + 1 < n ==> Follows(t, m, n - 1);
    assert n + 1 < m ==> Follows(t, n, m - 1);
  }

  /** The instant that a clear time names lies between the same two changes. */
  lemma ClearLiesBetween(t: Table, w: int)
    requires Spaced(t) && Clear(t, w)
    ensures Era(t, Instant(t, w)) == WallEra(t, w)
  {
    var n := WallEra(t, w);
    assert n < |t.changes| ==> !Touches(t, n, w);
    EraIs(t, Instant(t, w), n);
  }

  /** Clear times follow the wall clock. */
  lemma ClearTimesFollow(t: Table, w: int, w': int)
    requires Spaced(t) && Clear(t, w) && Clear(t, w') && w < w'
    ensures Instant(t, w) < Instant(t, w')
  {
    var n, n' := WallEra(t, w), WallEra(t, w');
    ClearLiesBetween(t, w);
    ClearLiesBetween(t, w');
    assert n + 1 < n' ==> Follows(t, n, n' - 1);
    assert n' + 1 < n ==> Follows(t, n', n - 1);
  }

  lemma ZonesAreOrdered(t: Table)
    requires Spaced(t)
    ensures Ordered(ZoneOf(t))
  {
    forall w, w' | Clear(t, w) && Clear(t, w') && w < w' ensures Instant(t, w) < Instant(t, w') {
      ClearTimesFollow(t, w, w');
    }
    OrderedByWall(ZoneOf(t), w => Instant(t, w), w => Clear(t, w));
  }

  /** Date and time of day, taken together, are one wall-clock time. */
  lemma OrderedByWall(z: Zone, instant: int -> int, clear: int -> bool)
    requires forall w, w' :: clear(w) && clear(w') && w < w' ==> instant(w) < instant(w')
    requires forall d, time :: z.instant(d, time) == instant(d * DAY + time)
    requires forall d, time :: z.clear(d, time) == clear(d * DAY + time)
    ensures Ordered(z)
  {
  }

  // ---------------------------------------------------------------------
  // What "clear" means
  // ---------------------------------------------------------------------

  ghost predicate ReadOnce(t: Table, w: int) {
    && (exists a :: Reading(t, a) == w)
    && forall a, b :: Reading(t, a) == w && Reading(t, b) == w ==> a == b
  }

  /** A time is clear exactly when the wall clock shows it at one instant, neither never nor
      twice; and then it names that instant. */
  lemma ClearIff(t: Table, w: int)
    requires Spaced(t)
    ensures Clear(t, w) <==> ReadOnce(t, w)
    ensures Clear(t, w) ==> Reading(t, Instant(t, w)) == w
  {
    if Clear(t, w) {
      ClearLiesBetween(t, w);
      forall a | Reading(t, a) == w ensures a == Instant(t, w) {
        OnlyItsInstant(t, w, a);
      }
      assert Reading(t, Instant(t, w)) == w;
    } else {
      var n :| 0 <= n < |t.changes| && Touches(t, n, w);
      TouchedIsNotReadOnce(t, n, w);
    }
  }

  lemma TouchedIsNotReadOnce(t: Table, n: nat, w: int)
    requires Spaced(t) && n < |t.changes| && Touches(t, n, w)
    ensures !ReadOnce(t, w)
  {
    if Offset(t, n) < Offset(t, n + 1) {
      forall a ensures Reading(t, a) != w {
        SkippedIsNeverRead(t, n, w, a);
      }
    } else {
      RepeatedIsReadTwice(t, n, w);
    }
  }

  lemma OnlyItsInstant(t: Table, w: int, a: int)
    requires Spaced(t) && Clear(t, w) && Reading(t, a) == w
    ensures a == Instant(t, w)
  {
    var j, k := Era(t, a), WallEra(t, w);
    assert j + 1 < k ==> Follows(t, j, k - 1);
    assert k + 1 < j ==> Follows(t, k, j - 1);
    assert j > 0 ==> !Touches(t, j - 1, w);
  }

  lemma SkippedIsNeverRead(t: Table, n: nat, w: int, a: int)
    requires Spaced(t) && n < |t.changes| && Touches(t, n, w) && Offset(t, n) < Offset(t, n + 1)
    ensures Reading(t, a) != w
  {
    var j := Era(t, a);
    assert j < n ==> Follows(t, j, n);
    assert n + 1 < j ==> Follows(t, n, j - 1);
  }

  lemma RepeatedIsReadTwice(t: Table, n: nat, w: int)
    requires Spaced(t) && n < |t.changes| && Touches(t, n, w) && Offset(t, n) >= Offset(t, n + 1)
    ensures Reading(t, w - Offset(t, n)) == w == Reading(t, w - Offset(t, n + 1))
    ensures Offset(t, n) != Offset(t, n + 1)
  {
    assert n > 0 ==> Follows(t, n - 1, n);
    assert n + 1 < |t.changes| ==> Follows(t, n, n + 1);
    EraIs(t, w - Offset(t, n), n);
    EraIs(t, w - Offset(t, n + 1), n + 1);
  }

  // ---------------------------------------------------------------------
  // One change
  // ---------------------------------------------------------------------

  /** At the instant `at`, clocks change from one offset to another. */
  function OneChange(at: int, before: int, later: int): Zone {
    ZoneOf(Table(before, [Change(at, later)]))
  }

  lemma OneChangeIs(at: int, before: int, later: int, w: int)
    ensures var t := Table(before, [Change(at, later)]);
            && Spaced(t)
            && Instant(t, w) == w - (if w >= at + before && w >= at + later then later else before)
            && (Clear(t, w) <==> !(at + before <= w < at + later) && !(at + later <= w < at + before))
  {
    var t := Table(before, [Change(at, later)]);
    assert Offset(t, 0) == before && Offset(t, 1) == later;
    assert Clear(t, w) <==> !Touches(t, 0, w);
  }
}
