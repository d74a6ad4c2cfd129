/** Whole runs of queue operations on one channel that several queues share
    (apps/calendar/services.py), while reviewers and the publisher change statuses
    (apps/composer/models.py, apps/publisher/engine.py). */
module QueueRuns {
  import opened Common
  import opened PostingSlots
  import opened QueueState
  import opened QueueSafety
  import opened Reorder
  import opened ClockChanges

  /** Removing an entry. */
  lemma RemoveIsSafe(c: State, now: int, k: Key)
    requires NoDoubleBooking(c.rows, now)
    ensures var c' := Removed(c, k);
            && NoDoubleBooking(c'.rows, now) && HistoryKept(c.rows, c'.rows)
            && (InSync(c) ==> InSync(c')) && SameSetup(c, c')
  {
  }

  /** The entry is gone and the other posts are untouched. The slot is a gap exactly when the
      child could be drafted, and exactly then the post's entries in the channel's other
      queues go too; a post awaiting review keeps its time and those entries. */
  lemma RemoveLeavesAGap(c: State, now: int, k: Key)
    requires NoDoubleBooking(c.rows, now) && k in c.entries
    ensures var c' := Removed(c, k);
            && k !in c'.entries
            && (forall e :: e in c.entries && e.post != k.post ==> e in c'.entries && c'.entries[e] == c.entries[e])
            && (forall p :: p in c.rows && p != k.post ==> p in c'.rows && c'.rows[p] == c.rows[p])
            && (forall e :: e in c.entries && e.post == k.post && e != k ==>
                  (e in c'.entries <==> !(k.post in c.rows && CanDraft(c.rows[k.post].status))))
            && (k.post in c.rows && Holds(c.rows[k.post], now) ==>
                  (c.rows[k.post].at.value !in Occupied(c'.rows, now, {}) <==> CanDraft(c.rows[k.post].status)))
  {
    if k.post in c.rows && Holds(c.rows[k.post], now) {
      var t := c.rows[k.post].at.value;
      var c' := Removed(c, k);
      if !CanDraft(c.rows[k.post].status) {
        assert Holds(c'.rows[k.post], now) && c'.rows[k.post].at.value == t;
      }
    }
  }

  // ---------------------------------------------------------------------
  // Publishing
  // ---------------------------------------------------------------------

  function WithStatus(c: State, p: PostId, s: Status): State
    requires p in c.rows
  {
    c.(rows := c.rows[p := c.rows[p].(status := s)])
  }

  /** The statuses with an edge to publishing (apps/composer/models.py). */
  predicate CanPublish(s: Status) {
    s.Draft? || s.Approved? || s.Scheduled? || s.Failed?
  }

  /** The end of an attempt writes the whole row back, with the time that the attempt loaded.
      A published post leaves the channel's queues, any other keeps its entries. The post's
      own time is not synced. */
  function Finished(c: State, p: PostId, s: Status, at: Option<int>): State
    requires p in c.rows
  {
    var c1 := c.(rows := c.rows[p := Row(s, at)]);
    if s.Published? then c1.(entries := map k | k in c.entries && k.post != p :: c.entries[k]) else c1
  }

  /** While a post is being published its instant counts as free. */
  ghost predicate TakenMeanwhile(c: State, now: int, p: PostId, at: Option<int>) {
    at.Some? && at.value > now && at.value in Occupied(c.rows, now, {p})
  }

  /** So a failed attempt leaves future instants distinct exactly when nobody took the one it
      loaded. */
  lemma FailureSafeIff(c: State, now: int, p: PostId, s: Status, at: Option<int>)
    requires NoDoubleBooking(c.rows, now) && p in c.rows && c.rows[p].status.Publishing? && !Protected(s)
    ensures NoDoubleBooking(Finished(c, p, s, at).rows, now) <==> !TakenMeanwhile(c, now, p, at)
  {
    var rows' := Finished(c, p, s, at).rows;
    if TakenMeanwhile(c, now, p, at) {
      var q :| q in c.rows && q !in {p} && Holds(c.rows[q], now) && c.rows[q].at.value == at.value;
      assert Holds(rows'[p], now) && Holds(rows'[q], now) && rows'[p].at == rows'[q].at;
    } else {
      forall q | q in c.rows && q != p && Holds(c.rows[q], now) && at.Some? && at.value > now
        ensures c.rows[q].at != at
      {
        assert c.rows[q].at.value in Occupied(c.rows, now, {p});
      }
    }
  }

  /** A successful attempt takes the post out of every queue of the channel, and a failed one
      leaves all entries. Afterwards the occupied instants are those of the others, and after
      a failure the loaded one if it is still to come. */
  lemma AttemptEnds(c: State, now: int, p: PostId, s: Status, at: Option<int>)
    requires p in c.rows && (s.Published? || s.Failed? || s.Scheduled?)
    ensures var c' := Finished(c, p, s, at);
            && c'.rows == c.rows[p := Row(s, at)] && c'.parents == c.parents && SameSetup(c, c')
            && (forall e :: e in c'.entries <==> e in c.entries && !(s.Published? && e.post == p))
            && (forall e :: e in c'.entries ==> c'.entries[e] == c.entries[e])
            && Occupied(c'.rows, now, {}) == Occupied(c.rows, now, {p})
                 + (if !s.Published? && at.Some? && at.value > now then {at.value} else {})
  {
    var rows' := Finished(c, p, s, at).rows;
    assert forall q :: q in rows' && q != p ==> q in c.rows && rows'[q] == c.rows[q];
    assert forall q :: q in c.rows && q !in {p} ==> q in rows' && rows'[q] == c.rows[q];
    assert p in rows' && rows'[p] == Row(s, at);
  }

  ghost predicate SameEarliest(c: State, p: PostId, at: Option<int>)
    requires p in c.rows
  {
    var others := if p in c.siblings then c.siblings[p] else None;
    Earlier(at, others) == Earlier(c.rows[p].at, others)
  }

  /** And it leaves aggregates in step exactly when writing the time back changes no
      earliest time. */
  lemma FinishSyncIff(c: State, p: PostId, s: Status, at: Option<int>)
    requires InSync(c) && p in c.rows
    ensures InSync(Finished(c, p, s, at)) <==> SameEarliest(c, p, at)
  {
    var c' := Finished(c, p, s, at);
    assert p in c'.rows;
    forall q | q in c'.rows && q != p ensures c'.rows[q] == c.rows[q] && q in c.rows {
    }
  }

  // ---------------------------------------------------------------------
  // Runs
  // ---------------------------------------------------------------------

  /** The channel, and the times that publishing attempts have loaded. */
  datatype World = World(c: State, loaded: map<PostId, Option<int>>)

  /** Re-slotting an entry is adding its post again. A drag on the calendar and a reviewer's
      decision are steps of the environment. A due post is loaded and started in one step;
      retries are loaded first and started later, one after another. */
  datatype Op =
    | Add(k: Key)
    | Prioritize(k: Key, listing: seq<PostId>)
    | Reorder(queue: QueueId, ids: seq<Key>)
    | Remove(k: Key)
    | Drag(post: PostId, dest: int)
    | Review(post: PostId, status: Status)
    | Start(post: PostId)
    | Load(post: PostId)
    | Retry(post: PostId)
    | Finish(post: PostId, status: Status)

  datatype Event = Event(now: int, op: Op)

  function Dragged(c: State, p: PostId, dest: int): State {
    if p in c.rows then Synced(c.(rows := c.rows[p := c.rows[p].(at := Some(dest))]), p) else c
  }

  /** An operation that raises leaves the channel as it was. */
  function Step(w: World, e: Event): World {
    var c := w.c;
    match e.op
    case Add(k) => w.(c := match AddedNext(c, e.now, k) case Some(c') => c' case None => c)
    case Prioritize(k, listing) => w.(c := match Prioritized(c, e.now, listing, k) case Some(c') => c' case None => c)
    case Reorder(queue, ids) => w.(c := Reordered(c, queue, ids))
    case Remove(k) => w.(c := Removed(c, k))
    case Drag(p, dest) => w.(c := Dragged(c, p, dest))
    case Review(p, s) => if p in c.rows then w.(c := WithStatus(c, p, s)) else w
    case Start(p) =>
      if p in c.rows then World(WithStatus(c, p, Publishing), w.loaded[p := c.rows[p].at]) else w
    case Load(p) => if p in c.rows then w.(loaded := w.loaded[p := c.rows[p].at]) else w
    case Retry(p) => if p in c.rows then w.(c := WithStatus(c, p, Publishing)) else w
    case Finish(p, s) =>
      if p in c.rows && p in w.loaded then World(Finished(c, p, s, w.loaded[p]), w.loaded - {p}) else w
  }

  ghost predicate Outcome(s: Status) {
    s.Published? || s.Failed? || s.Scheduled?
  }

  /** What each step must keep to, in exact terms. */
  ghost predicate Allowed(w: World, e: Event) {
    var c := w.c;
    match e.op
    case Add(k) => SlotSafe(c, e.now, k.post)
    case Prioritize(k, listing) =>
      && IsListing(c.entries, k.queue, listing) && !(k.post in c.rows && Protected(c.rows[k.post].status))
      && PlacesSafely(c, e.now, listing, k)
    case Reorder(queue, ids) => LeftApart(Movable(c, queue, ids), DealtTimes(c, queue, ids), e.now)
    case Remove(k) => k in c.entries
    case Drag(p, dest) => IsLive(c, p) && dest !in Occupied(c.rows, e.now, {p})
    case Review(p, s) => IsLive(c, p) && !Protected(s)
    case Start(p) => p in c.rows && CanPublish(c.rows[p].status)
    case Load(p) => p in c.rows && c.rows[p].status.Scheduled?
    case Retry(p) => IsLive(c, p) && p in w.loaded
    case Finish(p, s) =>
      && p in c.rows && p in w.loaded && c.rows[p].status.Publishing? && Outcome(s)
      && SameEarliest(c, p, w.loaded[p]) && (s.Published? || !TakenMeanwhile(c, e.now, p, w.loaded[p]))
  }

  function Run(w: World, events: seq<Event>): World
    decreases |events|
  {
    if events == [] then w else Run(Step(w, events[0]), events[1..])
  }

  /** Time does not run backwards, and every step is allowed where it happens. */
  ghost predicate AllowedRun(w: World, since: int, events: seq<Event>)
    decreases |events|
  {
    events != [] ==>
      && since <= events[0].now
      && Allowed(w, events[0])
      && AllowedRun(Step(w, events[0]), events[0].now, events[1..])
  }

  ghost predicate Configured(c: State) {
    Ordered(c.zone) && WellOrdered(c.slots)
  }

  ghost predicate Sound(w: World, now: int) {
    Configured(w.c) && NoDoubleBooking(w.c.rows, now) && InSync(w.c)
  }

  /** Published is final. */
  ghost predicate PublishedKept(rows: map<PostId, Row>, rows': map<PostId, Row>) {
    && rows'.Keys == rows.Keys
    && forall p :: p in rows && rows[p].status.Published? ==> rows'[p] == rows[p]
  }

  /** Nothing but the end of its own attempt changes a row that is being published, or the
      time that the attempt loaded. */
  ghost predicate AttemptKept(w: World, w': World, op: Op) {
    && w'.c.rows.Keys == w.c.rows.Keys
    && forall p :: p in w.c.rows && w.c.rows[p].status.Publishing? && !(op.Finish? && op.post == p) ==>
         w'.c.rows[p] == w.c.rows[p] && (p in w.loaded ==> p in w'.loaded && w'.loaded[p] == w.loaded[p])
  }

  lemma TimePasses(rows: map<PostId, Row>, now: int, later: int)
    requires now <= later && NoDoubleBooking(rows, now)
    ensures NoDoubleBooking(rows, later)
  {
    forall p, q | p in rows && q in rows && p != q && Holds(rows[p], later) && Holds(rows[q], later)
      ensures rows[p].at != rows[q].at
    {
      assert Holds(rows[p], now) && Holds(rows[q], now);
    }
  }

  lemma QueueStepIsSafe(w: World, e: Event)
    requires Sound(w, e.now) && Allowed(w, e)
    requires e.op.Add? || e.op.Prioritize? || e.op.Reorder? || e.op.Remove?
    ensures Sound(Step(w, e), e.now) && HistoryKept(w.c.rows, Step(w, e).c.rows)
  {
    var c := w.c;
    match e.op
    case Add(k) =>
      if AddedNext(c, e.now, k).Some? {
        AddSafeIff(c, e.now, k);
        AddKeepsRest(c, e.now, k);
      }
    case Prioritize(k, listing) =>
      if Prioritized(c, e.now, listing, k).Some? {
        ZonesAreOrderly(c, e.now);
        PrioritizeSafeIff(c, e.now, listing, k);
        PrioritizeMoves(c, e.now, listing, k);
      }
    case Reorder(queue, ids) =>
      ReorderSafeIff(c, e.now, queue, ids);
      ReorderKeepsHistory(c, queue, ids);
      ReorderDeals(c, queue, ids);
    case Remove(k) =>
      RemoveIsSafe(c, e.now, k);
  }

  lemma DragIsSafe(c: State, now: int, p: PostId, dest: int)
    requires NoDoubleBooking(c.rows, now) && InSync(c) && IsLive(c, p) && dest !in Occupied(c.rows, now, {p})
    ensures NoDoubleBooking(Dragged(c, p, dest).rows, now) && InSync(Dragged(c, p, dest))
    ensures HistoryKept(c.rows, Dragged(c, p, dest).rows) && SameSetup(c, Dragged(c, p, dest))
  {
    forall q | q in c.rows && q != p && Holds(c.rows[q], now) ensures c.rows[q].at != Some(dest) {
      assert c.rows[q].at.value in Occupied(c.rows, now, {p});
    }
  }

  /** A change of status moves no time. */
  lemma StatusIsSafe(c: State, now: int, p: PostId, s: Status)
    requires NoDoubleBooking(c.rows, now) && InSync(c) && IsLive(c, p)
    ensures NoDoubleBooking(WithStatus(c, p, s).rows, now) && InSync(WithStatus(c, p, s))
    ensures HistoryKept(c.rows, WithStatus(c, p, s).rows)
  {
  }

  lemma FinishIsSafe(c: State, now: int, p: PostId, s: Status, at: Option<int>)
    requires NoDoubleBooking(c.rows, now) && InSync(c) && p in c.rows && c.rows[p].status.Publishing?
    requires SameEarliest(c, p, at) && (s.Published? || (!Protected(s) && !TakenMeanwhile(c, now, p, at)))
    ensures NoDoubleBooking(Finished(c, p, s, at).rows, now) && InSync(Finished(c, p, s, at))
    ensures Finished(c, p, s, at).rows.Keys == c.rows.Keys
    ensures forall q :: q in c.rows && q != p ==> Finished(c, p, s, at).rows[q] == c.rows[q]
  {
    FinishSyncIff(c, p, s, at);
    if !s.Published? {
      FailureSafeIff(c, now, p, s, at);
    }
  }

  /** Every step keeps the channel sound, published rows final, and rows that are being
      published as they are until their attempt ends. */
  lemma StepIsSafe(w: World, e: Event)
    requires Sound(w, e.now) && Allowed(w, e)
    ensures Sound(Step(w, e), e.now)
    ensures PublishedKept(w.c.rows, Step(w, e).c.rows) && AttemptKept(w, Step(w, e), e.op)
  {
    match e.op
    case Add(_) => QueueStepIsSafe(w, e);
    case Prioritize(_, _) => QueueStepIsSafe(w, e);
    case Reorder(_, _) => QueueStepIsSafe(w, e);
    case Remove(_) => QueueStepIsSafe(w, e);
    case Drag(p, dest) => DragIsSafe(w.c, e.now, p, dest);
    case Review(p, s) => StatusIsSafe(w.c, e.now, p, s);
    case Start(p) => StatusIsSafe(w.c, e.now, p, Publishing);
    case Load(p) =>
    case Retry(p) => StatusIsSafe(w.c, e.now, p, Publishing);
    case Finish(p, s) => FinishIsSafe(w.c, e.now, p, s, w.loaded[p]);
  }

  lemma {:induction false} RunIsSound(w: World, since: int, events: seq<Event>)
    requires Sound(w, since) && AllowedRun(w, since, events)
    ensures Sound(Run(w, events), if events == [] then since else events[|events| - 1].now)
    ensures PublishedKept(w.c.rows, Run(w, events).c.rows)
    decreases |events|
  {
    if events != [] {
      var e, rest := events[0], events[1..];
      TimePasses(w.c.rows, since, e.now);
      StepIsSafe(w, e);
      RunIsSound(Step(w, e), e.now, rest);
      if rest != [] {
        assert rest[|rest| - 1] == events[|events| - 1];
      }
    }
  }

  lemma {:induction false} PublishedIsFinal(w: World, since: int, events: seq<Event>, n: nat)
    requires Sound(w, since) && AllowedRun(w, since, events) && n <= |events|
    ensures PublishedKept(Run(w, events[..n]).c.rows, Run(w, events).c.rows)
    decreases |events|
  {
    if n == 0 {
      RunIsSound(w, since, events);
    } else {
      var e, rest := events[0], events[1..];
      TimePasses(w.c.rows, since, e.now);
      StepIsSafe(w, e);
      PublishedIsFinal(Step(w, e), e.now, rest, n - 1);
      assert events[..n][1..] == rest[..n - 1];
    }
  }

  /** Over any run of steps that are each allowed: no two live posts come to hold the same
      future instant, aggregates stay in step, and a post that is published at any point of
      the run keeps its row to the end. */
  lemma RunIsSafe(w: World, since: int, events: seq<Event>)
    requires Sound(w, since) && AllowedRun(w, since, events)
    ensures Sound(Run(w, events), if events == [] then since else events[|events| - 1].now)
    ensures forall n :: 0 <= n <= |events| ==> PublishedKept(Run(w, events[..n]).c.rows, Run(w, events).c.rows)
  {
    RunIsSound(w, since, events);
    forall n | 0 <= n <= |events| ensures PublishedKept(Run(w, events[..n]).c.rows, Run(w, events).c.rows) {
      PublishedIsFinal(w, since, events, n);
    }
  }

  // ---------------------------------------------------------------------
  // Plain runs
  // ---------------------------------------------------------------------

  predicate Due(at: Option<int>, now: int) {
    at.Some? ==> at.value <= now
  }

  /** Conditions on what goes in: coming slots that are clear, ids named once, attempts that
      start when their post is due and has not been moved since it was loaded. Their end is
      unconditional. */
  ghost predicate Plain(w: World, e: Event) {
    var c := w.c;
    match e.op
    case Add(k) => AllClear(UpcomingSlots(c, e.now))
    case Prioritize(k, listing) =>
      && IsListing(c.entries, k.queue, listing) && !(k.post in c.rows && Protected(c.rows[k.post].status))
      && AllClear(UpcomingSlots(c, e.now))
    case Reorder(queue, ids) => Distinct(ids)
    case Remove(k) => k in c.entries
    case Drag(p, dest) => IsLive(c, p) && dest !in Occupied(c.rows, e.now, {p})
    case Review(p, s) => IsLive(c, p) && !Protected(s)
    case Start(p) => p in c.rows && CanPublish(c.rows[p].status) && Due(c.rows[p].at, e.now)
    case Load(p) => p in c.rows && c.rows[p].status.Scheduled?
    case Retry(p) => IsLive(c, p) && p in w.loaded && w.loaded[p] == c.rows[p].at && Due(c.rows[p].at, e.now)
    case Finish(p, s) => p in c.rows && p in w.loaded && c.rows[p].status.Publishing? && Outcome(s)
  }

  ghost predicate PlainRun(w: World, since: int, events: seq<Event>)
    decreases |events|
  {
    events != [] ==>
      && since <= events[0].now
      && Plain(w, events[0])
      && PlainRun(Step(w, events[0]), events[0].now, events[1..])
  }

  /** Every attempt under way has loaded the row's own time, and that has passed. */
  ghost predicate Passed(w: World, now: int) {
    forall p :: p in w.c.rows && w.c.rows[p].status.Publishing? && p in w.loaded ==>
      w.loaded[p] == w.c.rows[p].at && Due(w.loaded[p], now)
  }

  lemma PlainIsAllowed(w: World, e: Event)
    requires Sound(w, e.now) && Passed(w, e.now) && Plain(w, e)
    ensures Allowed(w, e)
  {
    match e.op
    case Add(k) => ClearSlotIsSafe(w.c, e.now, k.post);
    case Prioritize(k, listing) => ClearPlacesSafely(w.c, e.now, listing, k);
    case Reorder(queue, ids) =>
      NamedAreDistinct(w.c, queue, ids);
      SlottedAreDistinct(w.c.rows, Named(w.c, queue, ids));
      NamedOnceIsSafe(w.c, e.now, queue, ids);
    case _ =>
  }

  lemma PassedStays(w: World, e: Event)
    requires Sound(w, e.now) && Passed(w, e.now) && Plain(w, e)
    ensures Passed(Step(w, e), e.now)
  {
    PlainIsAllowed(w, e);
    StepIsSafe(w, e);
    var w' := Step(w, e);
    forall p | p in w'.c.rows && w'.c.rows[p].status.Publishing? && p in w'.loaded
      ensures w'.loaded[p] == w'.c.rows[p].at && Due(w'.loaded[p], e.now)
    {
      assert p in w.c.rows.Keys;
      OnlyStartsPublish(w, e, p);
    }
  }

  /** A row goes into publishing by a start or a retry only. */
  lemma OnlyStartsPublish(w: World, e: Event, p: PostId)
    requires Sound(w, e.now) && Plain(w, e) && Passed(w, e.now)
    requires p in w.c.rows && p in Step(w, e).c.rows && Step(w, e).c.rows[p].status.Publishing?
    ensures w.c.rows[p].status.Publishing? || ((e.op.Start? || e.op.Retry?) && e.op.post == p)
    ensures p in Step(w, e).loaded ==> p in w.loaded || ((e.op.Start? || e.op.Load?) && e.op.post == p)
  {
    match e.op
    case Add(_) => QueueStepsPublishNothing(w.c, Step(w, e).c, e, p);
    case Prioritize(_, _) => QueueStepsPublishNothing(w.c, Step(w, e).c, e, p);
    case Reorder(_, _) => QueueStepsPublishNothing(w.c, Step(w, e).c, e, p);
    case Remove(_) => QueueStepsPublishNothing(w.c, Step(w, e).c, e, p);
    case _ =>
  }

  lemma QueueStepsPublishNothing(c: State, c': State, e: Event, p: PostId)
    requires NoDoubleBooking(c.rows, e.now) && p in c.rows && c' == Step(World(c, map[]), e).c
    requires e.op.Add? || e.op.Prioritize? || e.op.Reorder? || e.op.Remove?
    requires e.op.Prioritize? ==> IsListing(c.entries, e.op.k.queue, e.op.listing)
    ensures p in c'.rows && (c'.rows[p].status.Publishing? ==> c.rows[p].status.Publishing?)
  {
    match e.op
    case Add(k) =>
      if AddedNext(c, e.now, k).Some? && !(k.post in c.rows && Protected(c.rows[k.post].status)) {
        WrittenFacts(WithEntry(c, k), k, SlotFound(c, e.now, k.post).value.at);
      }
    case Prioritize(k, listing) =>
      if Prioritized(c, e.now, listing, k).Some? {
        PrioritizeKeepsStatus(c, e.now, listing, k, p);
      }
    case Reorder(queue, ids) =>
      ReorderDeals(c, queue, ids);
      StatusIsKept(c.rows, c'.rows, Movable(c, queue, ids), DealtTimes(c, queue, ids), p);
    case Remove(k) =>
  }

  lemma PrioritizeKeepsStatus(c: State, now: int, listing: seq<PostId>, k: Key, p: PostId)
    requires NoDoubleBooking(c.rows, now) && IsListing(c.entries, k.queue, listing)
    requires Prioritized(c, now, listing, k).Some? && p in c.rows
    ensures var c' := Prioritized(c, now, listing, k).value;
            p in c'.rows && c'.rows[p].status == c.rows[p].status
  {
    PrioritizeMoves(c, now, listing, k);
    assert p in Prioritized(c, now, listing, k).value.rows.Keys;
    if FirstSlotQueued(c, now, listing, k) {
      LadderOutcome(c, now, listing, k);
      var movers := LadderMovers(c, now, listing, k);
      if IsMover(movers, p) {
        var i :| 0 <= i < |movers| && movers[i].post == p;
      }
    } else {
      FillMoves(c, now, listing, k);
    }
  }

  lemma {:induction false} PlainRunIsAllowed(w: World, since: int, events: seq<Event>)
    requires Sound(w, since) && Passed(w, since) && PlainRun(w, since, events)
    ensures AllowedRun(w, since, events)
    decreases |events|
  {
    if events != [] {
      var e := events[0];
      TimePasses(w.c.rows, since, e.now);
      PlainIsAllowed(w, e);
      StepIsSafe(w, e);
      PassedStays(w, e);
      PlainRunIsAllowed(Step(w, e), e.now, events[1..]);
    }
  }

  /** The main theorem. Over any run of queue operations, drags, reviews and publishing
      attempts that keeps to those conditions, however the attempts end: no two live posts
      come to hold the same future instant, aggregates stay in step, and a post that is
      published at any point of the run keeps its row to the end. */
  lemma PlainRunIsSafe(w: World, since: int, events: seq<Event>)
    requires Sound(w, since) && Passed(w, since) && PlainRun(w, since, events)
    ensures Sound(Run(w, events), if events == [] then since else events[|events| - 1].now)
    ensures forall n :: 0 <= n <= |events| ==> PublishedKept(Run(w, events[..n]).c.rows, Run(w, events).c.rows)
  {
    PlainRunIsAllowed(w, since, events);
    RunIsSafe(w, since, events);
  }

  // ---------------------------------------------------------------------
  // Attempts
  // ---------------------------------------------------------------------

  lemma {:induction false} AttemptLasts(w: World, since: int, events: seq<Event>, p: PostId)
    requires Sound(w, since) && AllowedRun(w, since, events)
    requires p in w.c.rows && p in w.loaded && w.c.rows[p].status.Publishing?
    requires forall i :: 0 <= i < |events| ==> !(events[i].op.Finish? && events[i].op.post == p)
    ensures p in Run(w, events).c.rows && Run(w, events).c.rows[p] == w.c.rows[p]
    ensures p in Run(w, events).loaded && Run(w, events).loaded[p] == w.loaded[p]
    decreases |events|
  {
    if events != [] {
      var e, rest := events[0], events[1..];
      TimePasses(w.c.rows, since, e.now);
      StepIsSafe(w, e);
      assert p in Step(w, e).c.rows.Keys;
      assert forall i :: 0 <= i < |rest| ==> rest[i] == events[i + 1];
      AttemptLasts(Step(w, e), e.now, rest, p);
    }
  }

  /** An attempt that started when the post was due may end in any way at any later time,
      whatever has happened in between. */
  lemma DueAttemptMayFail(w: World, now: int, events: seq<Event>, p: PostId, s: Status, later: int)
    requires Sound(w, now) && Allowed(w, Event(now, Start(p))) && Due(w.c.rows[p].at, now)
    requires AllowedRun(Step(w, Event(now, Start(p))), now, events)
    requires forall i :: 0 <= i < |events| ==> !(events[i].op.Finish? && events[i].op.post == p)
    requires now <= later && Outcome(s)
    ensures Allowed(Run(Step(w, Event(now, Start(p))), events), Event(later, Finish(p, s)))
  {
    StepIsSafe(w, Event(now, Start(p)));
    AttemptLasts(Step(w, Event(now, Start(p))), now, events, p);
  }

  /** A retry does not wait for the post's own time. If the post holds the first slot ahead
      when its retry starts, another post is added, and the retry fails, both are left at
      that slot. */
  lemma EarlyRetryDoubleBooks(w: World, now: int, p: PostId, k: Key)
    requires NoDoubleBooking(w.c.rows, now) && UpcomingSlots(w.c, now) != []
    requires p in w.c.rows && w.c.rows[p] == Row(Scheduled, Some(UpcomingSlots(w.c, now)[0].at))
    requires IsLive(w.c, k.post) && k.post != p
    ensures var started := Step(Step(w, Event(now, Load(p))), Event(now, Retry(p)));
            !NoDoubleBooking(Step(Step(started, Event(now, Add(k))), Event(now, Finish(p, Failed))).c.rows, now)
  {
    var at := w.c.rows[p].at;
    var started := Step(Step(w, Event(now, Load(p))), Event(now, Retry(p)));
    assert started == World(WithStatus(w.c, p, Publishing), w.loaded[p := at]);
    EarlyFailureClashes(w.c, now, p, k);
    var added := Step(started, Event(now, Add(k)));
    assert added == World(AddedNext(started.c, now, k).value, w.loaded[p := at]);
    assert Step(added, Event(now, Finish(p, Failed))).c == Finished(added.c, p, Failed, at);
  }

  lemma EarlyFailureClashes(c: State, now: int, p: PostId, k: Key)
    requires NoDoubleBooking(c.rows, now) && UpcomingSlots(c, now) != []
    requires p in c.rows && c.rows[p] == Row(Scheduled, Some(UpcomingSlots(c, now)[0].at))
    requires IsLive(c, k.post) && k.post != p
    ensures var added := AddedNext(WithStatus(c, p, Publishing), now, k);
            && added.Some? && p in added.value.rows
            && !NoDoubleBooking(Finished(added.value, p, Failed, c.rows[p].at).rows, now)
  {
    var h, started := UpcomingSlots(c, now), WithStatus(c, p, Publishing);
    UpcomingIsLater(c.zone, c.slots, now);
    assert h[0] in h;
    FirstSlotIsTaken(c, started, now, p, k);
    var failed := Finished(AddedNext(started, now, k).value, p, Failed, Some(h[0].at)).rows;
    assert Holds(failed[p], now) && Holds(failed[k.post], now);
  }

  lemma FirstSlotIsTaken(c: State, started: State, now: int, p: PostId, k: Key)
    requires NoDoubleBooking(c.rows, now) && UpcomingSlots(c, now) != [] && UpcomingSlots(c, now)[0].at > now
    requires p in c.rows && c.rows[p] == Row(Scheduled, Some(UpcomingSlots(c, now)[0].at))
    requires IsLive(c, k.post) && k.post != p && started == WithStatus(c, p, Publishing)
    ensures var added := AddedNext(started, now, k);
            && added.Some? && k.post in added.value.rows && p in added.value.rows
            && added.value.rows[k.post] == Row(c.rows[k.post].status, Some(UpcomingSlots(c, now)[0].at))
            && added.value.rows[p] == Row(Publishing, Some(UpcomingSlots(c, now)[0].at))
  {
    var h, taken := UpcomingSlots(c, now), Occupied(started.rows, now, {k.post});
    forall q | q in started.rows && q != k.post && Holds(started.rows[q], now)
      ensures started.rows[q].at.value != h[0].at
    {
      assert q in c.rows && c.rows[q] == started.rows[q] && Holds(c.rows[p], now);
    }
    assert h[0].at !in taken;
    assert SlotFound(started, now, k.post) == Some(h[0]);
    WrittenFacts(WithEntry(started, k), k, h[0].at);
  }

  /** Nor does it read the row again: if the post is moved from a to b after the retries were
      loaded, another takes a, and the retry fails, both hold a, although nobody took b. */
  lemma StaleRetryDoubleBooks(w: World, now: int, p: PostId, q: PostId, a: int, b: int)
    requires p in w.c.rows && w.c.rows[p] == Row(Scheduled, Some(a)) && IsLive(w.c, q) && p != q
    requires now < a && now < b && a != b
    ensures var moved := Step(Step(w, Event(now, Load(p))), Event(now, Drag(p, b)));
            var retried := Step(Step(moved, Event(now, Drag(q, a))), Event(now, Retry(p)));
            && p in retried.c.rows && retried.c.rows[p] == Row(Publishing, Some(b))
            && !NoDoubleBooking(Step(retried, Event(now, Finish(p, Failed))).c.rows, now)
  {
    var c1 := Dragged(w.c, p, b);
    var c2 := WithStatus(Dragged(c1, q, a), p, Publishing);
    var failed := Finished(c2, p, Failed, Some(a)).rows;
    assert p in failed && q in failed && Holds(failed[p], now) && Holds(failed[q], now) && failed[p].at == failed[q].at;
  }
}
