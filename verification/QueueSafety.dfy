/** What the queue operations guarantee, for every channel state and over every run
    (apps/calendar/services.py). */
module QueueSafety {
  import opened Common
  import opened PostingSlots
  import opened QueueState
  import opened Ladder

  /** The clear ones among the coming slots ascend, as they do in every zone. */
  ghost predicate Orderly(c: State, now: int) {
    ClearAscend(UpcomingSlots(c, now))
  }

  lemma ZonesAreOrderly(c: State, now: int)
    requires Ordered(c.zone) && WellOrdered(c.slots)
    ensures Orderly(c, now)
  {
    UpcomingAscends(c.zone, c.slots, now);
  }

  /** No operation changes the channel's configuration. */
  ghost predicate SameSetup(c: State, c': State) {
    c'.zone == c.zone && c'.slots == c.slots && c'.siblings == c.siblings
  }

  /** No two live platform posts claim the same future instant. */
  ghost predicate NoDoubleBooking(rows: map<PostId, Row>, now: int) {
    forall p, q :: p in rows && q in rows && p != q && Holds(rows[p], now) && Holds(rows[q], now) ==>
                     rows[p].at != rows[q].at
  }

  /** Every post's aggregate time is the earliest of its children. */
  ghost predicate InSync(c: State) {
    forall p :: p in c.rows ==> p in c.parents && c.parents[p] == EarliestChild(c.rows, c.siblings, p)
  }

  /** The rows outside `moved` are as before, and the moved ones keep their status. */
  ghost predicate OnlyMoved(rows: map<PostId, Row>, rows': map<PostId, Row>, moved: set<PostId>) {
    && rows'.Keys == rows.Keys
    && forall p :: p in rows ==> rows'[p].status == rows[p].status && (p !in moved ==> rows'[p] == rows[p])
  }

  /** Published and publishing rows are as before. */
  ghost predicate HistoryKept(rows: map<PostId, Row>, rows': map<PostId, Row>) {
    && rows'.Keys == rows.Keys
    && forall p :: p in rows && Protected(rows[p].status) ==> rows'[p] == rows[p]
  }

  lemma WrittenFacts(c: State, k: Key, dt: int)
    ensures var c' := Written(c, k, dt);
            && OnlyMoved(c.rows, c'.rows, {k.post})
            && (k.post in c.rows ==> c'.rows[k.post].at == Some(dt))
            && (k in c.entries ==> c'.entries == c.entries[k := Entry(c.entries[k].position, Some(dt))])
            && (InSync(c) ==> InSync(c'))
            && SameSetup(c, c')
  {
  }

  /** A missing entry is appended behind all others of its queue, which stay as they are. */
  lemma EntryIsAppended(c: State, k: Key)
    ensures var r := WithEntry(c, k);
            && r.rows == c.rows && r.parents == c.parents && r.entries.Keys == c.entries.Keys + {k}
            && (forall e :: e in c.entries ==> r.entries[e] == c.entries[e])
            && (k !in c.entries ==>
                  r.entries[k].slotAt.None?
                  && forall e :: e in c.entries && e.queue == k.queue ==> r.entries[e].position < r.entries[k].position)
  {
  }

  /** A future instant can be given to a post exactly when no other live post holds it. */
  lemma WriteSafeIff(c: State, now: int, k: Key, dt: int)
    requires NoDoubleBooking(c.rows, now) && dt > now
    ensures NoDoubleBooking(Written(c, k, dt).rows, now)
            <==> (IsLive(c, k.post) ==> dt !in Occupied(c.rows, now, {k.post}))
  {
    var rows' := Written(c, k, dt).rows;
    forall p | p in c.rows && p != k.post && Holds(c.rows[p], now)
      ensures c.rows[p].at.value in Occupied(c.rows, now, {k.post})
    {
    }
    if IsLive(c, k.post) && dt in Occupied(c.rows, now, {k.post}) {
      var p :| p in c.rows && p !in {k.post} && Holds(c.rows[p], now) && c.rows[p].at.value == dt;
      assert Holds(rows'[p], now) && Holds(rows'[k.post], now) && rows'[p].at == rows'[k.post].at;
    }
  }

  predicate IsLive(c: State, p: PostId) {
    p in c.rows && !Protected(c.rows[p].status)
  }

  // ---------------------------------------------------------------------
  // Next available
  // ---------------------------------------------------------------------

  /** The slot that the search finds for a post. */
  function SlotFound(c: State, now: int, post: PostId): Option<Candidate> {
    BoundedFree(UpcomingSlots(c, now), Occupied(c.rows, now, {post}))
  }

  /** The post lands on the first slot of the whole horizon that is not found occupied, and
      the queue is full exactly when there is none. Nobody else moves. */
  lemma AddIsExact(c: State, now: int, k: Key)
    requires Orderly(c, now) && !(k.post in c.rows && Protected(c.rows[k.post].status))
    ensures var h, taken := UpcomingSlots(c, now), Occupied(c.rows, now, {k.post});
            match AddedNext(c, now, k)
            case None => forall i :: 0 <= i < |h| ==> Among(h[i], taken)
            case Some(c') =>
              exists i :: FirstAt(h, taken, i)
                && k in c'.entries && c'.entries[k].slotAt == Some(h[i].at)
                && (k.post in c.rows ==> c'.rows[k.post].at == Some(h[i].at))
                && OnlyMoved(c.rows, c'.rows, {k.post})
  {
    var h, taken := UpcomingSlots(c, now), Occupied(c.rows, now, {k.post});
    BoundedSearchIsExact(h, taken);
    FirstFreeMeaning(h, taken);
    if FirstFree(h, taken).Some? {
      WrittenFacts(WithEntry(c, k), k, FirstFree(h, taken).value.at);
    }
  }

  /** Another post of the channel that is neither published nor publishing has that time. */
  ghost predicate HeldElsewhere(c: State, post: PostId, t: int) {
    exists q :: q in c.rows && q != post && !c.rows[q].status.Published? && !c.rows[q].status.Publishing?
                && c.rows[q].at == Some(t)
  }

  lemma OccupiedIsHeld(c: State, now: int, post: PostId, t: int)
    requires t > now
    ensures t in Occupied(c.rows, now, {post}) <==> HeldElsewhere(c, post, t)
  {
  }

  /** Where all coming slots are clear, that is the earliest instant that nobody else on the
      channel holds. */
  lemma AddIsEarliest(c: State, now: int, k: Key)
    requires Orderly(c, now) && AllClear(UpcomingSlots(c, now)) && IsLive(c, k.post)
    ensures var h := UpcomingSlots(c, now);
            match AddedNext(c, now, k)
            case None => forall x :: x in h ==> HeldElsewhere(c, k.post, x.at)
            case Some(c') =>
              && k.post in c'.rows && c'.rows[k.post].at.Some?
              && Candidate(c'.rows[k.post].at.value, true) in h
              && !HeldElsewhere(c, k.post, c'.rows[k.post].at.value)
              && forall x :: x in h && x.at < c'.rows[k.post].at.value ==> HeldElsewhere(c, k.post, x.at)
  {
    var h, taken := UpcomingSlots(c, now), Occupied(c.rows, now, {k.post});
    AddIsExact(c, now, k);
    UpcomingIsLater(c.zone, c.slots, now);
    forall x | x in h ensures x.at in taken <==> HeldElsewhere(c, k.post, x.at) {
      OccupiedIsHeld(c, now, k.post, x.at);
    }
    if AddedNext(c, now, k).Some? {
      var c' := AddedNext(c, now, k).value;
      var i :| FirstAt(h, taken, i) && c'.rows[k.post].at == Some(h[i].at) && OnlyMoved(c.rows, c'.rows, {k.post});
      assert k.post in c'.rows.Keys && h[i] == Candidate(h[i].at, true) && h[i] in h;
    }
  }

  /** Adding keeps history, aggregates and configuration in any case. */
  lemma AddKeepsRest(c: State, now: int, k: Key)
    requires AddedNext(c, now, k).Some?
    ensures var c' := AddedNext(c, now, k).value;
            HistoryKept(c.rows, c'.rows) && (InSync(c) ==> InSync(c')) && SameSetup(c, c')
  {
    if !(k.post in c.rows && Protected(c.rows[k.post].status)) {
      WrittenFacts(WithEntry(c, k), k, SlotFound(c, now, k.post).value.at);
    }
  }

  /** What the search finds can be taken: it is clear, or nobody else holds its instant. */
  ghost predicate SlotSafe(c: State, now: int, post: PostId) {
    var slot := SlotFound(c, now, post);
    slot.Some? && IsLive(c, post) ==> slot.value.clear || slot.value.at !in Occupied(c.rows, now, {post})
  }

  /** Future instants stay distinct exactly when it can. */
  lemma AddSafeIff(c: State, now: int, k: Key)
    requires NoDoubleBooking(c.rows, now) && AddedNext(c, now, k).Some?
    ensures NoDoubleBooking(AddedNext(c, now, k).value.rows, now) <==> SlotSafe(c, now, k.post)
  {
    if !(k.post in c.rows && Protected(c.rows[k.post].status)) {
      SlotFoundFacts(c, now, k.post);
      WriteSafeIff(WithEntry(c, k), now, k, SlotFound(c, now, k.post).value.at);
    }
  }

  lemma SlotFoundFacts(c: State, now: int, post: PostId)
    ensures var slot := SlotFound(c, now, post);
            slot.Some? ==> slot.value in UpcomingSlots(c, now) && slot.value.at > now
                           && !Among(slot.value, Occupied(c.rows, now, {post}))
  {
    BoundedFreeIsListed(UpcomingSlots(c, now), Occupied(c.rows, now, {post}));
    UpcomingIsLater(c.zone, c.slots, now);
  }

  // ---------------------------------------------------------------------
  // Prioritize: who moves
  // ---------------------------------------------------------------------

  ghost predicate DistinctPosts(held: seq<Held>) {
    forall i, j :: 0 <= i < j < |held| ==> held[i].post != held[j].post
  }

  lemma {:induction false} HoldersAreDistinct(rows: map<PostId, Row>, now: int, listing: seq<PostId>, post: PostId)
    requires Distinct(listing)
    ensures DistinctPosts(Holders(rows, now, listing, post))
  {
    if listing != [] {
      var n := |listing| - 1;
      var prior := Holders(rows, now, listing[..n], post);
      HoldersAreDistinct(rows, now, listing[..n], post);
      HoldersAreListed(rows, now, listing[..n], post);
      forall i | 0 <= i < |prior| ensures prior[i].post != listing[n] {
        assert prior[i] in prior;
        assert prior[i].post in listing[..n];
      }
    }
  }

  lemma {:induction false} InWindowIsDistinct(held: seq<Held>, window: seq<Candidate>)
    requires DistinctPosts(held)
    ensures Distinct(InWindow(held, window))
  {
    if held != [] {
      var n := |held| - 1;
      var prior := InWindow(held[..n], window);
      InWindowIsDistinct(held[..n], window);
      InWindowMembers(held[..n], window);
      forall i | 0 <= i < |prior| ensures prior[i].post != held[n].post {
        assert prior[i] in prior;
        var e :| e in held[..n] && e.post == prior[i].post;
      }
    }
  }

  /** A mover is another live post that holds its old slot, which the ladder may reuse. */
  ghost predicate FairMover(c: State, now: int, k: Key, m: Mover, h: seq<Candidate>, avoid: set<int>) {
    && m.post != k.post && m.post in c.rows && Holds(c.rows[m.post], now)
    && 0 <= m.idx < |h| && h[m.idx].clear && c.rows[m.post].at == Some(h[m.idx].at)
    && h[m.idx].at !in avoid
  }

  /** What the ladder starts from: fair movers, each post once, latest slot first. */
  ghost predicate LadderStart(c: State, now: int, k: Key, movers: seq<Mover>, h: seq<Candidate>, avoid: set<int>) {
    && (forall i :: 0 <= i < |movers| ==> FairMover(c, now, k, movers[i], h, avoid))
    && (forall i, j :: 0 <= i < j < |movers| ==>
          movers[i].idx > movers[j].idx && movers[i].post != movers[j].post)
  }

  /** The movers' posts are distinct, and so are their indices. */
  lemma TwoMovers(c: State, now: int, held: seq<Held>, window: seq<Candidate>, i: int, j: int)
    requires NoDoubleBooking(c.rows, now)
    requires forall m :: m in held ==>
               m.post in c.rows && Holds(c.rows[m.post], now) && c.rows[m.post].at == Some(m.at)
    requires Distinct(InWindow(held, window)) && 0 <= i < j < |Movers(held, window)|
    ensures var movers := Movers(held, window);
            movers[i].idx > movers[j].idx && movers[i].post != movers[j].post
  {
    var movers := Movers(held, window);
    SortKeepsDistinct(InWindow(held, window), LatestFirst);
    SortIsSorted(InWindow(held, window), LatestFirst);
    assert LatestFirst(movers[i]) <= LatestFirst(movers[j]);
    assert movers[i] != movers[j];
    MoverIsHeld(held, window, i);
    MoverIsHeld(held, window, j);
    var a, b := Held(movers[i].post, window[movers[i].idx].at), Held(movers[j].post, window[movers[j].idx].at);
    assert a in held && b in held;
  }

  lemma MoversAreFair(c: State, now: int, listing: seq<PostId>, k: Key, i: int)
    requires 0 <= i < |LadderMovers(c, now, listing, k)|
    ensures FairMover(c, now, k, LadderMovers(c, now, listing, k)[i], UpcomingSlots(c, now),
                      LadderAvoid(c, now, listing, k))
  {
    var held := Holders(c.rows, now, listing, k.post);
    HoldersAreListed(c.rows, now, listing, k.post);
    MoverIsHeld(held, Window(c, now, held), i);
  }

  lemma LadderStarts(c: State, now: int, listing: seq<PostId>, k: Key)
    requires NoDoubleBooking(c.rows, now) && IsListing(c.entries, k.queue, listing)
    ensures LadderStart(c, now, k, LadderMovers(c, now, listing, k), UpcomingSlots(c, now),
                        LadderAvoid(c, now, listing, k))
  {
    var held := Holders(c.rows, now, listing, k.post);
    var window, movers := Window(c, now, held), LadderMovers(c, now, listing, k);
    HoldersAreListed(c.rows, now, listing, k.post);
    HoldersAreDistinct(c.rows, now, listing, k.post);
    InWindowIsDistinct(held, window);
    forall i | 0 <= i < |movers|
      ensures FairMover(c, now, k, movers[i], UpcomingSlots(c, now), LadderAvoid(c, now, listing, k))
    {
      MoversAreFair(c, now, listing, k, i);
    }
    forall i, j | 0 <= i < j < |movers|
      ensures movers[i].idx > movers[j].idx && movers[i].post != movers[j].post
    {
      TwoMovers(c, now, held, window, i, j);
    }
  }

  lemma LadderStartIsMovable(c: State, now: int, k: Key, movers: seq<Mover>, h: seq<Candidate>, avoid: set<int>)
    requires LadderStart(c, now, k, movers, h, avoid)
    ensures Movable(h, avoid, OldIndices(movers))
  {
    var olds := OldIndices(movers);
    forall i | 0 <= i < |olds| ensures 0 <= olds[i] < |h| && !Among(h[olds[i]], avoid) {
      assert FairMover(c, now, k, movers[i], h, avoid);
    }
  }

  // ---------------------------------------------------------------------
  // Prioritize: where they land
  // ---------------------------------------------------------------------

  /** The rows once the movers from index `from` on have landed on `js`. */
  ghost predicate MovedRows(rows: map<PostId, Row>, rows': map<PostId, Row>, movers: seq<Mover>,
                            from: nat, js: seq<int>, h: seq<Candidate>)
  {
    && |js| == |movers|
    && rows'.Keys == rows.Keys
    && (forall i :: from <= i < |movers| && movers[i].post in rows ==>
          0 <= js[i] < |h| && rows'[movers[i].post] == rows[movers[i].post].(at := Some(h[js[i]].at)))
    && (forall p :: p in rows && (forall i :: from <= i < |movers| ==> movers[i].post != p) ==> rows'[p] == rows[p])
  }

  /** The climb over rows lands where the climb over indices does. */
  lemma {:induction false} ClimbLands(p: Progress, queue: QueueId, movers: seq<Mover>, h: seq<Candidate>, avoid: set<int>)
    requires |p.landed| <= |movers|
    requires forall i :: 0 <= i < |movers| ==> 0 <= movers[i].idx
    ensures match Climbed(p, queue, movers, h, avoid)
            case None => Landings(h, avoid, OldIndices(movers), p.landed).None?
            case Some(r) => Landings(h, avoid, OldIndices(movers), p.landed) == Some(r.landed) && p.landed <= r.landed
                            && |r.landed| == |movers|
    decreases |movers| - |p.landed|
  {
    var n := |p.landed|;
    if n < |movers| {
      var step := OneClimbed(p, Key(queue, movers[n].post), movers[n].idx, h, avoid);
      if step.Some? {
        ClimbLands(step.value, queue, movers, h, avoid);
      }
    }
  }

  lemma {:induction false} ClimbMovesRows(p: Progress, queue: QueueId, movers: seq<Mover>, h: seq<Candidate>, avoid: set<int>)
    requires |p.landed| <= |movers|
    requires forall i :: 0 <= i < |movers| ==> 0 <= movers[i].idx
    requires forall i, j :: 0 <= i < j < |movers| ==> movers[i].post != movers[j].post
    ensures match Climbed(p, queue, movers, h, avoid)
            case None => true
            case Some(r) =>
              && MovedRows(p.state.rows, r.state.rows, movers, |p.landed|, r.landed, h)
              && (InSync(p.state) ==> InSync(r.state))
              && SameSetup(p.state, r.state)
    decreases |movers| - |p.landed|
  {
    var n := |p.landed|;
    if n < |movers| {
      var k := Key(queue, movers[n].post);
      var step := OneClimbed(p, k, movers[n].idx, h, avoid);
      if step.Some? {
        var j := step.value.landed[n];
        WrittenFacts(p.state, k, h[j].at);
        ClimbLands(step.value, queue, movers, h, avoid);
        ClimbMovesRows(step.value, queue, movers, h, avoid);
        var r := Climbed(step.value, queue, movers, h, avoid);
        if r.Some? {
          OneMoreRow(p.state.rows, step.value.state.rows, r.value.state.rows, movers, n, r.value.landed, h);
        }
      }
    }
  }

  lemma OneMoreRow(rows: map<PostId, Row>, mid: map<PostId, Row>, rows': map<PostId, Row>, movers: seq<Mover>,
                   n: nat, js: seq<int>, h: seq<Candidate>)
    requires n < |movers| == |js| && 0 <= js[n] < |h|
    requires forall i, j :: 0 <= i < j < |movers| ==> movers[i].post != movers[j].post
    requires OnlyMoved(rows, mid, {movers[n].post})
    requires movers[n].post in rows ==> mid[movers[n].post].at == Some(h[js[n]].at)
    requires MovedRows(mid, rows', movers, n + 1, js, h)
    ensures MovedRows(rows, rows', movers, n, js, h)
  {
  }

  // ---------------------------------------------------------------------
  // Prioritize: the ladder branch
  // ---------------------------------------------------------------------

  /** An entry of this queue holds the first upcoming slot. */
  ghost predicate FirstSlotQueued(c: State, now: int, listing: seq<PostId>, k: Key) {
    var h := UpcomingSlots(c, now);
    h != [] && Among(h[0], Instants(Holders(c.rows, now, listing, k.post)))
  }

  function LadderMovers(c: State, now: int, listing: seq<PostId>, k: Key): seq<Mover> {
    var held := Holders(c.rows, now, listing, k.post);
    Movers(held, Window(c, now, held))
  }

  function LadderAvoid(c: State, now: int, listing: seq<PostId>, k: Key): set<int> {
    var held := Holders(c.rows, now, listing, k.post);
    Avoid(c.rows, now, k.post, held, Window(c, now, held))
  }

  /** The rows after the ladder: the post at slot 0, each mover at its landing. */
  ghost predicate LadderRows(rows: map<PostId, Row>, rows': map<PostId, Row>, post: PostId,
                             movers: seq<Mover>, js: seq<int>, h: seq<Candidate>)
  {
    && rows'.Keys == rows.Keys && |js| == |movers| && h != []
    && (post in rows ==> rows'[post] == rows[post].(at := Some(h[0].at)))
    && (forall i :: 0 <= i < |movers| && movers[i].post in rows ==>
          0 <= js[i] < |h| && rows'[movers[i].post] == rows[movers[i].post].(at := Some(h[js[i]].at)))
    && (forall p :: p in rows && p != post && (forall i :: 0 <= i < |movers| ==> movers[i].post != p) ==>
          rows'[p] == rows[p])
  }

  /** In that branch, prioritizing is the climb followed by the post's own write. */
  lemma PrioritizedIsClimbed(c: State, now: int, listing: seq<PostId>, k: Key)
    requires FirstSlotQueued(c, now, listing, k)
    requires forall i :: 0 <= i < |LadderMovers(c, now, listing, k)| ==> 0 <= LadderMovers(c, now, listing, k)[i].idx
    ensures var h := UpcomingSlots(c, now);
            Prioritized(c, now, listing, k)
            == match Climbed(Progress(WithEntry(c, k), []), k.queue, LadderMovers(c, now, listing, k), h,
                             LadderAvoid(c, now, listing, k))
               case None => None
               case Some(p) => Some(Written(p.state, k, h[0].at))
  {
  }

  lemma ClimbThenWrite(c: State, now: int, k: Key, mid: State, movers: seq<Mover>, js: seq<int>, h: seq<Candidate>,
                       avoid: set<int>)
    requires h != [] && LadderStart(c, now, k, movers, h, avoid)
    requires MovedRows(c.rows, mid.rows, movers, 0, js, h)
    ensures LadderRows(c.rows, Written(mid, k, h[0].at).rows, k.post, movers, js, h)
  {
    forall i | 0 <= i < |movers| ensures movers[i].post != k.post {
      assert FairMover(c, now, k, movers[i], h, avoid);
    }
  }

  /** The climb lands every mover and leaves everyone else, or gets stuck. */
  lemma LadderLands(c: State, now: int, k: Key, movers: seq<Mover>, h: seq<Candidate>, avoid: set<int>)
    requires h != [] && LadderStart(c, now, k, movers, h, avoid)
    ensures forall i :: 0 <= i < |movers| ==> 0 <= movers[i].idx
    ensures match Climbed(Progress(WithEntry(c, k), []), k.queue, movers, h, avoid)
            case None => Landings(h, avoid, OldIndices(movers), []).None?
            case Some(p) =>
              && Landings(h, avoid, OldIndices(movers), []) == Some(p.landed)
              && LadderRows(c.rows, Written(p.state, k, h[0].at).rows, k.post, movers, p.landed, h)
              && (InSync(c) ==> InSync(Written(p.state, k, h[0].at)))
              && SameSetup(c, Written(p.state, k, h[0].at))
  {
    forall i | 0 <= i < |movers| ensures 0 <= movers[i].idx {
      assert FairMover(c, now, k, movers[i], h, avoid);
    }
    var start := Progress(WithEntry(c, k), []);
    ClimbLands(start, k.queue, movers, h, avoid);
    ClimbMovesRows(start, k.queue, movers, h, avoid);
    var end := Climbed(start, k.queue, movers, h, avoid);
    if end.Some? {
      WrittenFacts(end.value.state, k, h[0].at);
      ClimbThenWrite(c, now, k, end.value.state, movers, end.value.landed, h, avoid);
    }
  }

  /** Where a successful ladder puts everybody. */
  ghost predicate Laddering(c: State, c': State, k: Key, movers: seq<Mover>, h: seq<Candidate>, avoid: set<int>) {
    var r := if Movable(h, avoid, OldIndices(movers)) then Landings(h, avoid, OldIndices(movers), []) else None;
    && r.Some? && |r.value| == |movers| && Interleaved(h, avoid, OldIndices(movers), r.value)
    && LadderRows(c.rows, c'.rows, k.post, movers, r.value, h)
    && (InSync(c) ==> InSync(c')) && SameSetup(c, c')
  }

  lemma LadderOutcome(c: State, now: int, listing: seq<PostId>, k: Key)
    requires NoDoubleBooking(c.rows, now) && IsListing(c.entries, k.queue, listing)
    requires FirstSlotQueued(c, now, listing, k)
    ensures var h, movers := UpcomingSlots(c, now), LadderMovers(c, now, listing, k);
            var avoid := LadderAvoid(c, now, listing, k);
            && LadderStart(c, now, k, movers, h, avoid) && Movable(h, avoid, OldIndices(movers))
            && match Prioritized(c, now, listing, k)
               case None => Landings(h, avoid, OldIndices(movers), []).None?
               case Some(c') => Laddering(c, c', k, movers, h, avoid)
  {
    var h, movers := UpcomingSlots(c, now), LadderMovers(c, now, listing, k);
    var avoid := LadderAvoid(c, now, listing, k);
    LadderStarts(c, now, listing, k);
    LadderStartIsMovable(c, now, k, movers, h, avoid);
    LadderLands(c, now, k, movers, h, avoid);
    PrioritizedIsClimbed(c, now, listing, k);
    if Prioritized(c, now, listing, k).Some? {
      LadderInterleaves(h, avoid, OldIndices(movers), []);
    }
  }

  ghost predicate IsMover(movers: seq<Mover>, p: PostId) {
    exists i :: 0 <= i < |movers| && movers[i].post == p
  }

  /** A live post that stays put is out of everybody's way. */
  ghost predicate OutOfTheWay(c: State, now: int, k: Key, movers: seq<Mover>, h: seq<Candidate>, avoid: set<int>)
    requires h != []
  {
    forall p :: p in c.rows && p != k.post && Holds(c.rows[p], now) && !IsMover(movers, p) ==>
      c.rows[p].at.value in avoid && c.rows[p].at != Some(h[0].at)
  }

  /** The movers land on different instants, none of them blocked, and none the one that the
      post takes. */
  ghost predicate LandApart(c: State, post: PostId, h: seq<Candidate>, avoid: set<int>, js: seq<int>) {
    && h != [] && (forall i :: 0 <= i < |js| ==> 0 <= js[i] < |h| && h[js[i]].at !in avoid)
    && (forall i, j :: 0 <= i < j < |js| ==> h[js[i]].at != h[js[j]].at)
    && (IsLive(c, post) ==> forall i :: 0 <= i < |js| ==> h[js[i]].at != h[0].at)
  }

  /** The same, asked of the slots that are not clear. */
  ghost predicate UnclearApart(c: State, post: PostId, h: seq<Candidate>, avoid: set<int>, js: seq<int>) {
    forall i :: 0 <= i < |js| && 0 <= js[i] < |h| && !h[js[i]].clear ==>
      && h[js[i]].at !in avoid
      && (forall j :: 0 <= j < |js| && j != i && 0 <= js[j] < |h| ==> h[js[j]].at != h[js[i]].at)
      && (IsLive(c, post) ==> h[js[i]].at != h[0].at)
  }

  /** Clear slots are apart anyway. */
  lemma ClearSlotsAreApart(c: State, post: PostId, h: seq<Candidate>, avoid: set<int>, olds: seq<int>, js: seq<int>)
    requires ClearAscend(h) && h != [] && h[0].clear && |js| == |olds| && Interleaved(h, avoid, olds, js)
    ensures LandApart(c, post, h, avoid, js) <==> UnclearApart(c, post, h, avoid, js)
  {
    if UnclearApart(c, post, h, avoid, js) {
      forall i | 0 <= i < |js| ensures 0 < js[i] < |h| && h[js[i]].at !in avoid {
        assert !Among(h[js[i]], avoid);
      }
      forall i, j | 0 <= i < j < |js| ensures h[js[i]].at != h[js[j]].at {
        assert js[i] > js[j];
      }
      forall i | 0 <= i < |js| && IsLive(c, post) ensures h[js[i]].at != h[0].at {
        assert 0 < js[i];
      }
    }
  }

  /** Laddering to different instants keeps the channel free of double bookings. */
  lemma LadderIsSafe(c: State, now: int, k: Key, rows': map<PostId, Row>, movers: seq<Mover>, js: seq<int>,
                     h: seq<Candidate>, avoid: set<int>)
    requires h != [] && NoDoubleBooking(c.rows, now) && LandApart(c, k.post, h, avoid, js)
    requires |js| == |movers| && Interleaved(h, avoid, OldIndices(movers), js)
    requires LadderRows(c.rows, rows', k.post, movers, js, h)
    requires OutOfTheWay(c, now, k, movers, h, avoid) && !IsMover(movers, k.post)
    ensures NoDoubleBooking(rows', now)
  {
    forall p, q | p in c.rows && q in c.rows && p != q && Holds(rows'[p], now) && Holds(rows'[q], now)
      ensures rows'[p].at != rows'[q].at
    {
      if IsMover(movers, p) {
        var i :| 0 <= i < |movers| && movers[i].post == p;
        MoverMissesOthers(c, now, k, rows', movers, js, h, avoid, i, q);
      } else if IsMover(movers, q) {
        var i :| 0 <= i < |movers| && movers[i].post == q;
        MoverMissesOthers(c, now, k, rows', movers, js, h, avoid, i, p);
      } else if p == k.post {
        assert rows'[q] == c.rows[q];
      } else {
        assert rows'[p] == c.rows[p];
        if q != k.post {
          assert rows'[q] == c.rows[q];
        }
      }
    }
  }

  lemma MoverMissesOthers(c: State, now: int, k: Key, rows': map<PostId, Row>, movers: seq<Mover>, js: seq<int>,
                          h: seq<Candidate>, avoid: set<int>, i: int, q: PostId)
    requires h != [] && LandApart(c, k.post, h, avoid, js)
    requires |js| == |movers| && Interleaved(h, avoid, OldIndices(movers), js)
    requires LadderRows(c.rows, rows', k.post, movers, js, h)
    requires OutOfTheWay(c, now, k, movers, h, avoid) && !IsMover(movers, k.post)
    requires 0 <= i < |movers| && movers[i].post in c.rows && q in c.rows && q != movers[i].post
    requires Holds(rows'[q], now)
    ensures rows'[movers[i].post].at != rows'[q].at
  {
    assert 0 < js[i] < |h| && h[js[i]].at !in avoid;
    if IsMover(movers, q) {
      var j :| 0 <= j < |movers| && movers[j].post == q;
      assert i < j || j < i;
    } else if q != k.post {
      assert rows'[q] == c.rows[q];
    }
  }

  /** The movers are the live entries of this queue, other than the post, that sit in the
      first slots: as many as there are such entries, and two more. */
  lemma WhoMoves(c: State, now: int, listing: seq<PostId>, k: Key, p: PostId)
    requires IsListing(c.entries, k.queue, listing)
    ensures IsMover(LadderMovers(c, now, listing, k), p)
            <==> Key(k.queue, p) in c.entries && p != k.post && p in c.rows && Holds(c.rows[p], now)
                 && Candidate(c.rows[p].at.value, true) in Window(c, now, Holders(c.rows, now, listing, k.post))
  {
    var held := Holders(c.rows, now, listing, k.post);
    var window := Window(c, now, held);
    var movers := Movers(held, window);
    HoldersAreListed(c.rows, now, listing, k.post);
    MoversAreHeld(held, window);
    if IsMover(movers, p) {
      var i :| 0 <= i < |movers| && movers[i].post == p;
      MoverIsHeld(held, window, i);
    }
    if Key(k.queue, p) in c.entries && p != k.post && p in c.rows && Holds(c.rows[p], now)
       && Candidate(c.rows[p].at.value, true) in window {
      var e := Held(p, c.rows[p].at.value);
      assert e in held;
      var m := Mover(IndexIn(window, e.at).value, p);
      assert m in movers;
      var i :| 0 <= i < |movers| && movers[i] == m;
    }
  }

  lemma OthersAreOutOfTheWay(c: State, now: int, listing: seq<PostId>, k: Key)
    requires NoDoubleBooking(c.rows, now) && IsListing(c.entries, k.queue, listing)
    requires FirstSlotQueued(c, now, listing, k)
    ensures OutOfTheWay(c, now, k, LadderMovers(c, now, listing, k), UpcomingSlots(c, now),
                        LadderAvoid(c, now, listing, k))
  {
    var h, held := UpcomingSlots(c, now), Holders(c.rows, now, listing, k.post);
    var window, movers := Window(c, now, held), LadderMovers(c, now, listing, k);
    HoldersAreListed(c.rows, now, listing, k.post);
    assert window[0] == h[0];
    forall p | p in c.rows && p != k.post && Holds(c.rows[p], now) && !IsMover(movers, p)
      ensures c.rows[p].at.value in LadderAvoid(c, now, listing, k) && c.rows[p].at != Some(h[0].at)
    {
      var t := c.rows[p].at.value;
      assert t in Occupied(c.rows, now, {k.post});
      forall m | m in held && (IndexIn(window, m.at).Some? || m.at == h[0].at) ensures m.at != t {
        WhoMoves(c, now, listing, k, m.post);
      }
    }
  }

  // ---------------------------------------------------------------------
  // Prioritize: the theorems
  // ---------------------------------------------------------------------

  /** Each mover goes strictly later, never past the old slot of the next one up, so the
      relative order is kept; nobody lands on slot 0 but the prioritized post. */
  ghost predicate ShiftedUp(rows: map<PostId, Row>, rows': map<PostId, Row>, movers: seq<Mover>, first: int) {
    && (forall p :: p in rows && IsMover(movers, p) ==>
          p in rows' && rows[p].at.Some? && rows'[p].at.Some?
          && first <= rows[p].at.value < rows'[p].at.value && rows'[p].status == rows[p].status)
    && (forall p, q :: p in rows && q in rows && IsMover(movers, p) && IsMover(movers, q)
                       && rows[p].at.Some? && rows[q].at.Some? && rows[p].at.value < rows[q].at.value ==>
          p in rows' && rows'[p].at.Some? && rows'[p].at.value <= rows[q].at.value)
  }

  lemma InterleavedInstants(h: seq<Candidate>, avoid: set<int>, olds: seq<int>, js: seq<int>)
    requires ClearAscend(h) && AllClear(h) && h != []
    requires Movable(h, avoid, olds) && |js| == |olds| && Interleaved(h, avoid, olds, js)
    ensures forall i :: 0 <= i < |olds| ==> h[0].at <= h[olds[i]].at < h[js[i]].at
    ensures forall i, j :: 0 <= i < |olds| && 0 <= j < |olds| && h[olds[i]].at < h[olds[j]].at ==>
              h[js[i]].at <= h[olds[j]].at
  {
    forall i, j | 0 <= i < |olds| && 0 <= j < |olds| && h[olds[i]].at < h[olds[j]].at
      ensures h[js[i]].at <= h[olds[j]].at
    {
      assert j < i;
    }
  }

  /** Each mover held its old slot and holds its landing now. */
  ghost predicate ClimbedRows(rows: map<PostId, Row>, rows': map<PostId, Row>, movers: seq<Mover>, h: seq<Candidate>,
                          olds: seq<int>, js: seq<int>)
  {
    && |olds| == |movers| == |js|
    && forall i :: 0 <= i < |movers| ==>
         && 0 <= olds[i] < |h| && 0 <= js[i] < |h| && movers[i].post in rows && movers[i].post in rows'
         && rows[movers[i].post].at == Some(h[olds[i]].at)
         && rows'[movers[i].post] == rows[movers[i].post].(at := Some(h[js[i]].at))
  }

  lemma MoversClimb(c: State, now: int, c': State, k: Key, movers: seq<Mover>, h: seq<Candidate>, avoid: set<int>)
    requires h != [] && LadderStart(c, now, k, movers, h, avoid) && Movable(h, avoid, OldIndices(movers))
    requires Laddering(c, c', k, movers, h, avoid)
    ensures ClimbedRows(c.rows, c'.rows, movers, h, OldIndices(movers), Landings(h, avoid, OldIndices(movers), []).value)
  {
    forall i | 0 <= i < |movers| ensures movers[i].post in c'.rows && FairMover(c, now, k, movers[i], h, avoid) {
      assert FairMover(c, now, k, movers[i], h, avoid);
      assert movers[i].post in c'.rows.Keys;
    }
  }

  lemma ClimbingShiftsUp(rows: map<PostId, Row>, rows': map<PostId, Row>, movers: seq<Mover>, h: seq<Candidate>,
                         olds: seq<int>, js: seq<int>)
    requires h != [] && ClimbedRows(rows, rows', movers, h, olds, js)
    requires forall i :: 0 <= i < |olds| ==> h[0].at <= h[olds[i]].at < h[js[i]].at
    requires forall i, j :: 0 <= i < |olds| && 0 <= j < |olds| && h[olds[i]].at < h[olds[j]].at ==>
               h[js[i]].at <= h[olds[j]].at
    ensures ShiftedUp(rows, rows', movers, h[0].at)
  {
    forall p | p in rows && IsMover(movers, p)
      ensures p in rows' && rows[p].at.Some? && rows'[p].at.Some?
              && h[0].at <= rows[p].at.value < rows'[p].at.value && rows'[p].status == rows[p].status
    {
      var i :| 0 <= i < |movers| && movers[i].post == p;
    }
    forall p, q | p in rows && q in rows && IsMover(movers, p) && IsMover(movers, q)
                  && rows[p].at.Some? && rows[q].at.Some? && rows[p].at.value < rows[q].at.value
      ensures p in rows' && rows'[p].at.Some? && rows'[p].at.value <= rows[q].at.value
    {
      var i :| 0 <= i < |movers| && movers[i].post == p;
      var j :| 0 <= j < |movers| && movers[j].post == q;
    }
  }

  lemma LadderShiftsUp(c: State, now: int, c': State, k: Key, movers: seq<Mover>, h: seq<Candidate>, avoid: set<int>)
    requires ClearAscend(h) && AllClear(h) && h != []
    requires LadderStart(c, now, k, movers, h, avoid) && Movable(h, avoid, OldIndices(movers))
    requires Laddering(c, c', k, movers, h, avoid)
    ensures ShiftedUp(c.rows, c'.rows, movers, h[0].at)
  {
    var olds := OldIndices(movers);
    var js := Landings(h, avoid, olds, []).value;
    MoversClimb(c, now, c', k, movers, h, avoid);
    InterleavedInstants(h, avoid, olds, js);
    ClimbingShiftsUp(c.rows, c'.rows, movers, h, olds, js);
  }

  /** The whole effect of a successful prioritize when the queue itself holds slot 0. */
  lemma PrioritizeLadders(c: State, now: int, listing: seq<PostId>, k: Key)
    requires Orderly(c, now) && AllClear(UpcomingSlots(c, now))
    requires NoDoubleBooking(c.rows, now) && IsListing(c.entries, k.queue, listing)
    requires FirstSlotQueued(c, now, listing, k) && Prioritized(c, now, listing, k).Some?
    ensures var c' := Prioritized(c, now, listing, k).value;
            var h, movers := UpcomingSlots(c, now), LadderMovers(c, now, listing, k);
            && c'.rows.Keys == c.rows.Keys
            && ShiftedUp(c.rows, c'.rows, movers, h[0].at)
            && (k.post in c.rows ==> c'.rows[k.post] == c.rows[k.post].(at := Some(h[0].at)))
            && (forall p :: p in c.rows && p != k.post && !IsMover(movers, p) ==> c'.rows[p] == c.rows[p])
  {
    var h, movers := UpcomingSlots(c, now), LadderMovers(c, now, listing, k);
    LadderOutcome(c, now, listing, k);
    LadderShiftsUp(c, now, Prioritized(c, now, listing, k).value, k, movers, h, LadderAvoid(c, now, listing, k));
  }

  /** The prioritized post ends on an upcoming instant; whoever else changes is live; and
      aggregates stay in step. */
  lemma PrioritizeMoves(c: State, now: int, listing: seq<PostId>, k: Key)
    requires NoDoubleBooking(c.rows, now) && IsListing(c.entries, k.queue, listing)
    requires Prioritized(c, now, listing, k).Some?
    ensures var c' := Prioritized(c, now, listing, k).value;
            && c'.rows.Keys == c.rows.Keys
            && (k.post in c.rows ==> c'.rows[k.post].at.Some? && IsUpcoming(c, now, c'.rows[k.post].at.value))
            && (k.post in c.rows ==> c'.rows[k.post].status == c.rows[k.post].status)
            && (forall p :: p in c.rows && p != k.post && Protected(c.rows[p].status) ==> c'.rows[p] == c.rows[p])
            && (InSync(c) ==> InSync(c')) && SameSetup(c, c')
  {
    if FirstSlotQueued(c, now, listing, k) {
      LadderOutcome(c, now, listing, k);
      NoneProtectedMoves(c, now, listing, k);
    } else {
      FillMoves(c, now, listing, k);
    }
  }

  lemma NoneProtectedMoves(c: State, now: int, listing: seq<PostId>, k: Key)
    requires IsListing(c.entries, k.queue, listing)
    ensures forall p :: p in c.rows && Protected(c.rows[p].status) ==> !IsMover(LadderMovers(c, now, listing, k), p)
  {
    forall p | p in c.rows && Protected(c.rows[p].status) ensures !IsMover(LadderMovers(c, now, listing, k), p) {
      WhoMoves(c, now, listing, k, p);
    }
  }

  /** Unless the queue itself holds slot 0, the post takes the slot that the search finds. */
  lemma FillsSlotFound(c: State, now: int, listing: seq<PostId>, k: Key)
    requires !FirstSlotQueued(c, now, listing, k)
    ensures Prioritized(c, now, listing, k)
         == match SlotFound(c, now, k.post)
            case None => None
            case Some(slot) => Some(Written(WithEntry(c, k), k, slot.at))
  {
    var h, taken := UpcomingSlots(c, now), Occupied(c.rows, now, {k.post});
    if h != [] && !Among(h[0], taken) {
      assert BoundedFree(h, taken) == Some(h[0]);
    }
  }

  lemma FillMoves(c: State, now: int, listing: seq<PostId>, k: Key)
    requires !FirstSlotQueued(c, now, listing, k) && Prioritized(c, now, listing, k).Some?
    ensures var c' := Prioritized(c, now, listing, k).value;
            && OnlyMoved(c.rows, c'.rows, {k.post})
            && (k.post in c.rows ==> c'.rows[k.post].at.Some? && IsUpcoming(c, now, c'.rows[k.post].at.value))
            && (InSync(c) ==> InSync(c')) && SameSetup(c, c')
  {
    FillsSlotFound(c, now, listing, k);
    SlotFoundFacts(c, now, k.post);
    WrittenFacts(WithEntry(c, k), k, SlotFound(c, now, k.post).value.at);
  }

  ghost predicate IsUpcoming(c: State, now: int, t: int) {
    exists x :: x in UpcomingSlots(c, now) && x.at == t
  }

  /** The slots that prioritizing takes are apart: with a ladder, those of its landings that
      are not clear; otherwise the one found. */
  ghost predicate PlacesSafely(c: State, now: int, listing: seq<PostId>, k: Key) {
    var h, olds := UpcomingSlots(c, now), OldIndices(LadderMovers(c, now, listing, k));
    var avoid := LadderAvoid(c, now, listing, k);
    if !FirstSlotQueued(c, now, listing, k) then SlotSafe(c, now, k.post)
    else Movable(h, avoid, olds) && Landings(h, avoid, olds, []).Some? ==>
      UnclearApart(c, k.post, h, avoid, Landings(h, avoid, olds, []).value)
  }

  /** Prioritizing keeps future instants distinct exactly when they are. */
  lemma PrioritizeSafeIff(c: State, now: int, listing: seq<PostId>, k: Key)
    requires Orderly(c, now) && NoDoubleBooking(c.rows, now) && IsListing(c.entries, k.queue, listing)
    requires Prioritized(c, now, listing, k).Some?
    ensures NoDoubleBooking(Prioritized(c, now, listing, k).value.rows, now) <==> PlacesSafely(c, now, listing, k)
  {
    if FirstSlotQueued(c, now, listing, k) {
      LadderSafeIff(c, now, listing, k);
    } else {
      FillsSlotFound(c, now, listing, k);
      SlotFoundFacts(c, now, k.post);
      WriteSafeIff(WithEntry(c, k), now, k, SlotFound(c, now, k.post).value.at);
    }
  }

  lemma LadderSafeIff(c: State, now: int, listing: seq<PostId>, k: Key)
    requires Orderly(c, now) && NoDoubleBooking(c.rows, now) && IsListing(c.entries, k.queue, listing)
    requires FirstSlotQueued(c, now, listing, k) && Prioritized(c, now, listing, k).Some?
    ensures NoDoubleBooking(Prioritized(c, now, listing, k).value.rows, now) <==> PlacesSafely(c, now, listing, k)
  {
    var h, c' := UpcomingSlots(c, now), Prioritized(c, now, listing, k).value;
    var movers, avoid := LadderMovers(c, now, listing, k), LadderAvoid(c, now, listing, k);
    LadderOutcome(c, now, listing, k);
    var js := Landings(h, avoid, OldIndices(movers), []).value;
    ClearSlotsAreApart(c, k.post, h, avoid, OldIndices(movers), js);
    WhoMoves(c, now, listing, k, k.post);
    if LandApart(c, k.post, h, avoid, js) {
      OthersAreOutOfTheWay(c, now, listing, k);
      LadderIsSafe(c, now, k, c'.rows, movers, js, h, avoid);
    }
    if NoDoubleBooking(c'.rows, now) {
      AvoidedAreHeld(c, now, listing, k);
      SafeLandsApart(c, now, k, c', movers, js, h, avoid);
    }
  }

  /** What is blocked is held by a live post that stays. */
  ghost predicate HeldByOther(c: State, now: int, post: PostId, movers: seq<Mover>, t: int) {
    exists p :: p in c.rows && p != post && Holds(c.rows[p], now) && !IsMover(movers, p) && c.rows[p].at == Some(t)
  }

  lemma AvoidedAreHeld(c: State, now: int, listing: seq<PostId>, k: Key)
    requires IsListing(c.entries, k.queue, listing)
    ensures forall t :: t in LadderAvoid(c, now, listing, k) ==>
              HeldByOther(c, now, k.post, LadderMovers(c, now, listing, k), t)
  {
    var held := Holders(c.rows, now, listing, k.post);
    var window, movers := Window(c, now, held), LadderMovers(c, now, listing, k);
    HoldersAreListed(c.rows, now, listing, k.post);
    forall t | t in LadderAvoid(c, now, listing, k) ensures HeldByOther(c, now, k.post, movers, t) {
      var p :| p in c.rows && p !in {k.post} && Holds(c.rows[p], now) && c.rows[p].at.value == t;
      WhoMoves(c, now, listing, k, p);
      assert Held(p, t) in held ==> IndexIn(window, t).None?;
    }
  }

  lemma SafeLandsApart(c: State, now: int, k: Key, c': State, movers: seq<Mover>, js: seq<int>, h: seq<Candidate>,
                       avoid: set<int>)
    requires h == UpcomingSlots(c, now) && h != [] && !IsMover(movers, k.post)
    requires LadderStart(c, now, k, movers, h, avoid) && LadderRows(c.rows, c'.rows, k.post, movers, js, h)
    requires forall t :: t in avoid ==> HeldByOther(c, now, k.post, movers, t)
    requires NoDoubleBooking(c'.rows, now)
    ensures LandApart(c, k.post, h, avoid, js)
  {
    UpcomingIsLater(c.zone, c.slots, now);
    forall i | 0 <= i < |js|
      ensures 0 <= js[i] < |h| && movers[i].post in c'.rows && Holds(c'.rows[movers[i].post], now)
              && c'.rows[movers[i].post].at == Some(h[js[i]].at)
    {
      assert FairMover(c, now, k, movers[i], h, avoid);
      assert h[js[i]] in h && movers[i].post in c'.rows.Keys;
    }
    forall i, t | 0 <= i < |js| && t in avoid ensures h[js[i]].at != t {
      var p :| p in c.rows && p != k.post && Holds(c.rows[p], now) && !IsMover(movers, p) && c.rows[p].at == Some(t);
      assert p in c'.rows.Keys && c'.rows[p] == c.rows[p] && movers[i].post != p;
    }
    forall i, j | 0 <= i < j < |js| ensures h[js[i]].at != h[js[j]].at {
      assert movers[i].post != movers[j].post;
    }
    if IsLive(c, k.post) {
      assert k.post in c'.rows.Keys && h[0] in h && Holds(c'.rows[k.post], now);
      forall i | 0 <= i < |js| ensures h[js[i]].at != h[0].at {
        assert IsMover(movers, movers[i].post);
      }
    }
  }

  /** When the queue-full error is raised: the queue does not hold slot 0 itself and every
      slot of the horizon is found occupied, or it does and every slot after its topmost
      mover's is. */
  lemma PrioritizeFailsIff(c: State, now: int, listing: seq<PostId>, k: Key)
    requires Orderly(c, now) && NoDoubleBooking(c.rows, now) && IsListing(c.entries, k.queue, listing)
    ensures var h, taken := UpcomingSlots(c, now), Occupied(c.rows, now, {k.post});
            Prioritized(c, now, listing, k).None? <==>
              if !FirstSlotQueued(c, now, listing, k) then forall i :: 0 <= i < |h| ==> Among(h[i], taken)
              else exists top :: IsTopMover(LadderMovers(c, now, listing, k), top)
                                 && forall i :: top < i < |h| ==> Among(h[i], taken)
  {
    var h, taken := UpcomingSlots(c, now), Occupied(c.rows, now, {k.post});
    if FirstSlotQueued(c, now, listing, k) {
      LadderFullIff(c, now, listing, k);
    } else {
      FillsSlotFound(c, now, listing, k);
      FirstFreeMeaning(h, taken);
      BoundedSearchIsExact(h, taken);
    }
  }

  /** The greatest index of any mover. */
  ghost predicate IsTopMover(movers: seq<Mover>, top: int) {
    && top >= 0 && (exists i :: 0 <= i < |movers| && movers[i].idx == top)
    && forall i :: 0 <= i < |movers| ==> movers[i].idx <= top
  }

  lemma LadderFullIff(c: State, now: int, listing: seq<PostId>, k: Key)
    requires Orderly(c, now) && NoDoubleBooking(c.rows, now) && IsListing(c.entries, k.queue, listing)
    requires FirstSlotQueued(c, now, listing, k)
    ensures var h, taken := UpcomingSlots(c, now), Occupied(c.rows, now, {k.post});
            Prioritized(c, now, listing, k).None? <==>
              exists top :: IsTopMover(LadderMovers(c, now, listing, k), top)
                            && forall i :: top < i < |h| ==> Among(h[i], taken)
  {
    var h := UpcomingSlots(c, now);
    var movers, avoid := LadderMovers(c, now, listing, k), LadderAvoid(c, now, listing, k);
    LadderOutcome(c, now, listing, k);
    SomeoneMoves(c, now, listing, k);
    LadderFailsIff(h, avoid, OldIndices(movers));
    var top := movers[0].idx;
    assert FairMover(c, now, k, movers[0], h, avoid);
    assert IsTopMover(movers, top);
    BeyondTheMovers(c, now, listing, k, top);
    forall top' | IsTopMover(movers, top') ensures top' == top {
    }
  }

  lemma SomeoneMoves(c: State, now: int, listing: seq<PostId>, k: Key)
    requires IsListing(c.entries, k.queue, listing) && FirstSlotQueued(c, now, listing, k)
    ensures LadderMovers(c, now, listing, k) != []
  {
    var h, held := UpcomingSlots(c, now), Holders(c.rows, now, listing, k.post);
    HoldersAreListed(c.rows, now, listing, k.post);
    assert Window(c, now, held)[0] == h[0] == Candidate(h[0].at, true);
    var m :| m in held && m.at == h[0].at;
    WhoMoves(c, now, listing, k, m.post);
  }

  /** Past the topmost mover, "occupied" and "held by someone who cannot move" coincide. */
  lemma BeyondTheMovers(c: State, now: int, listing: seq<PostId>, k: Key, top: int)
    requires Orderly(c, now) && IsListing(c.entries, k.queue, listing)
    requires IsTopMover(LadderMovers(c, now, listing, k), top)
    ensures var h := UpcomingSlots(c, now);
            forall i :: top < i < |h| ==>
              (Among(h[i], LadderAvoid(c, now, listing, k)) <==> Among(h[i], Occupied(c.rows, now, {k.post})))
  {
    var h, held := UpcomingSlots(c, now), Holders(c.rows, now, listing, k.post);
    var window := Window(c, now, held);
    MoversAreHeld(held, window);
    forall i, m | top < i < |h| && h[i].clear && m in held && IndexIn(window, m.at).Some? ensures m.at != h[i].at {
      var j := IndexIn(window, m.at).value;
      assert Mover(j, m.post) in LadderMovers(c, now, listing, k);
      assert h[j] == Candidate(m.at, true) && j <= top;
    }
  }

  /** When the queue does not hold slot 0 itself, prioritizing an unprotected post is the
      same as adding it to the next available slot, errors included. */
  lemma PrioritizeIsAdd(c: State, now: int, listing: seq<PostId>, k: Key)
    requires !FirstSlotQueued(c, now, listing, k)
    requires !(k.post in c.rows && Protected(c.rows[k.post].status))
    ensures Prioritized(c, now, listing, k) == AddedNext(c, now, k)
  {
    FillsSlotFound(c, now, listing, k);
  }

  /** There is no guard on the prioritized post itself: when slot 0 is free, a published
      post is moved there like any other. */
  lemma PublishedPostIsMoved(c: State, now: int, listing: seq<PostId>, k: Key)
    requires UpcomingSlots(c, now) != [] && !FirstSlotQueued(c, now, listing, k)
    requires !Among(UpcomingSlots(c, now)[0], Occupied(c.rows, now, {k.post}))
    requires k.post in c.rows && c.rows[k.post].status == Published
    ensures var r := Prioritized(c, now, listing, k);
            r.Some? && k.post in r.value.rows && r.value.rows[k.post] == Row(Published, Some(UpcomingSlots(c, now)[0].at))
  {
    WrittenFacts(WithEntry(c, k), k, UpcomingSlots(c, now)[0].at);
  }

  /** So history survives exactly when the post is unprotected, or lies at its landing
      already, which for a post published in the past it never does. */
  lemma PrioritizeKeepsHistoryIff(c: State, now: int, listing: seq<PostId>, k: Key)
    requires NoDoubleBooking(c.rows, now) && IsListing(c.entries, k.queue, listing)
    requires Prioritized(c, now, listing, k).Some?
    requires k.post in c.rows && c.rows[k.post].at.Some? ==> c.rows[k.post].at.value <= now
    ensures HistoryKept(c.rows, Prioritized(c, now, listing, k).value.rows)
            <==> !(k.post in c.rows && Protected(c.rows[k.post].status))
  {
    var h, taken := UpcomingSlots(c, now), Occupied(c.rows, now, {k.post});
    PrioritizeMoves(c, now, listing, k);
    UpcomingIsLater(c.zone, c.slots, now);
  }
}
