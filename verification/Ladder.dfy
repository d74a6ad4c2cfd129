/** Where the movers of `prioritize` land: a pure account of the climbing loop over slot
    indices (apps/calendar/services.py). */
module Ladder {
  import opened Common
  import opened PostingSlots

  /** First index from `j` on that nobody has claimed and whose instant is not blocked. */
  function FirstLanding(h: seq<Candidate>, avoid: set<int>, claimed: set<int>, j: int): (r: Option<int>)
    requires 0 <= j
    ensures r.Some? ==> j <= r.value < |h|
    decreases |h| - j
  {
    if j >= |h| then None
    else if j !in claimed && !Among(h[j], avoid) then Some(j)
    else FirstLanding(h, avoid, claimed, j + 1)
  }

  /** It is indeed the first: everything before it is claimed or blocked. */
  lemma {:induction false} FirstLandingIsFirst(h: seq<Candidate>, avoid: set<int>, claimed: set<int>, j: int)
    requires 0 <= j
    ensures var r := FirstLanding(h, avoid, claimed, j);
            && (r.Some? ==> r.value !in claimed && !Among(h[r.value], avoid))
            && forall i :: j <= i < (if r.Some? then r.value else |h|) ==> i in claimed || Among(h[i], avoid)
    decreases |h| - j
  {
    if j < |h| && (j in claimed || Among(h[j], avoid)) {
      FirstLandingIsFirst(h, avoid, claimed, j + 1);
    }
  }

  function Taken(js: seq<int>): set<int> {
    {0} + set j | j in js
  }

  lemma TakenMore(js: seq<int>, j: int)
    ensures Taken(js + [j]) == Taken(js) + {j}
  {
    assert forall i :: i in js + [j] <==> i in js || i == j;
  }

  /** The landings of movers at the old indices `olds`, handled in that order, once the
      first ones have landed on `js`; index 0 is reserved. Nothing when one of them finds
      no slot in the horizon. */
  function Landings(h: seq<Candidate>, avoid: set<int>, olds: seq<int>, js: seq<int>): Option<seq<int>>
    requires forall i :: 0 <= i < |olds| ==> 0 <= olds[i]
    decreases |olds| - |js|
  {
    if |js| >= |olds| then Some(js)
    else
      match FirstLanding(h, avoid, Taken(js), olds[|js|] + 1)
      case None => None
      case Some(j) => Landings(h, avoid, olds, js + [j])
  }

  ghost predicate StrictlyDescending(s: seq<int>) {
    forall i, k :: 0 <= i < k < |s| ==> s[i] > s[k]
  }

  /** The old slots are ones the ladder may reuse. */
  ghost predicate Movable(h: seq<Candidate>, avoid: set<int>, olds: seq<int>) {
    && StrictlyDescending(olds)
    && forall k :: 0 <= k < |olds| ==> 0 <= olds[k] < |h| && !Among(h[olds[k]], avoid)
  }

  /** With the movers taken from the latest slot down, old and new slots interleave: each
      mover goes strictly later, but never past the old slot of a mover above it. Relative
      order is therefore kept, landings are distinct, none is blocked, index 0 stays
      free, and every mover but the topmost stays below the topmost old slot. */
  ghost predicate Interleaved(h: seq<Candidate>, avoid: set<int>, olds: seq<int>, js: seq<int>) {
    && |js| <= |olds|
    && (forall k :: 0 <= k < |js| ==> 0 <= olds[k] < js[k] < |h| && !Among(h[js[k]], avoid))
    && (forall i, k :: 0 <= i < k < |js| ==> js[k] <= olds[i])
    && StrictlyDescending(js)
  }

  lemma {:induction false} LadderInterleaves(h: seq<Candidate>, avoid: set<int>, olds: seq<int>, js: seq<int>)
    requires Movable(h, avoid, olds) && Interleaved(h, avoid, olds, js)
    requires Landings(h, avoid, olds, js).Some?
    ensures var r := Landings(h, avoid, olds, js).value;
            |r| == |olds| && Interleaved(h, avoid, olds, r)
    decreases |olds| - |js|
  {
    if |js| < |olds| {
      var j := FirstLanding(h, avoid, Taken(js), olds[|js|] + 1).value;
      FirstLandingIsFirst(h, avoid, Taken(js), olds[|js|] + 1);
      NeverPastTheMoverAbove(h, avoid, olds, js, j);
      OneMoreLanding(h, avoid, olds, js, j);
      LadderInterleaves(h, avoid, olds, js + [j]);
    }
  }

  lemma OneMoreLanding(h: seq<Candidate>, avoid: set<int>, olds: seq<int>, js: seq<int>, j: int)
    requires StrictlyDescending(olds) && |js| < |olds|
    requires Interleaved(h, avoid, olds, js)
    requires 0 <= olds[|js|] < j < |h| && !Among(h[j], avoid)
    requires js != [] ==> j <= olds[|js| - 1]
    ensures Interleaved(h, avoid, olds, js + [j])
  {
    var all := js + [j];
    forall k | 0 <= k < |js| ensures all[k] == js[k] && j < js[k] && j <= olds[k] {
    }
  }

  lemma NeverPastTheMoverAbove(h: seq<Candidate>, avoid: set<int>, olds: seq<int>, js: seq<int>, j: int)
    requires Movable(h, avoid, olds) && |js| < |olds|
    requires Interleaved(h, avoid, olds, js)
    requires FirstLanding(h, avoid, Taken(js), olds[|js|] + 1) == Some(j)
    ensures js != [] ==> j <= olds[|js| - 1]
  {
    if js != [] {
      PreviousSlotIsFree(h, avoid, olds, js);
      FirstLandingIsFirst(h, avoid, Taken(js), olds[|js|] + 1);
    }
  }

  /** The next mover up has vacated its old slot, and nobody has landed on it. */
  lemma PreviousSlotIsFree(h: seq<Candidate>, avoid: set<int>, olds: seq<int>, js: seq<int>)
    requires Movable(h, avoid, olds) && 0 < |js| < |olds|
    requires Interleaved(h, avoid, olds, js)
    ensures var old' := olds[|js| - 1];
            olds[|js|] < old' < |h| && old' !in Taken(js) && !Among(h[old'], avoid)
  {
    var n := |js|;
    forall k | 0 <= k < n ensures js[k] > olds[n - 1] {
    }
  }

  /** Once the topmost mover has landed, all the others do. */
  lemma {:induction false} LowerMoversLand(h: seq<Candidate>, avoid: set<int>, olds: seq<int>, js: seq<int>)
    requires Movable(h, avoid, olds) && js != [] && Interleaved(h, avoid, olds, js)
    ensures Landings(h, avoid, olds, js).Some?
    decreases |olds| - |js|
  {
    if |js| < |olds| {
      PreviousSlotIsFree(h, avoid, olds, js);
      var r := FirstLanding(h, avoid, Taken(js), olds[|js|] + 1);
      FirstLandingIsFirst(h, avoid, Taken(js), olds[|js|] + 1);
      assert r.Some?;
      NeverPastTheMoverAbove(h, avoid, olds, js, r.value);
      OneMoreLanding(h, avoid, olds, js, r.value);
      LowerMoversLand(h, avoid, olds, js + [r.value]);
    }
  }

  /** So the ladder gets stuck exactly when every horizon slot after the topmost mover's
      old one is blocked. */
  lemma LadderFailsIff(h: seq<Candidate>, avoid: set<int>, olds: seq<int>)
    requires Movable(h, avoid, olds) && olds != []
    ensures Landings(h, avoid, olds, []).None? <==> forall i :: olds[0] < i < |h| ==> Among(h[i], avoid)
  {
    var r := FirstLanding(h, avoid, Taken([]), olds[0] + 1);
    TopmostLands(h, avoid, olds[0]);
    if r.Some? {
      OneMoreLanding(h, avoid, olds, [], r.value);
      assert [] + [r.value] == [r.value];
      LowerMoversLand(h, avoid, olds, [r.value]);
    }
  }

  lemma TopmostLands(h: seq<Candidate>, avoid: set<int>, old': int)
    requires 0 <= old'
    ensures var r := FirstLanding(h, avoid, Taken([]), old' + 1);
            && (r.None? <==> forall i :: old' < i < |h| ==> Among(h[i], avoid))
            && (r.Some? ==> old' < r.value < |h| && !Among(h[r.value], avoid))
  {
    FirstLandingIsFirst(h, avoid, Taken([]), old' + 1);
  }
}
