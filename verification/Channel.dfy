/** A channel whose rows the queue operations update in place (apps/calendar/services.py).
    Each operation holds the channel lock, so it is one atomic step; `now` is read once. */
module Channel {
  import opened Common
  import opened PostingSlots
  import opened QueueState
  import opened Ladder

  class SocialAccount {
    const zone: Zone
    const slots: seq<Slot>
    const siblings: map<PostId, Option<int>>
    var rows: map<PostId, Row>
    var entries: map<Key, Entry>
    var parents: map<PostId, Option<int>>

    ghost function View(): State
      reads this
    {
      State(zone, slots, siblings, rows, entries, parents)
    }

    constructor (zone: Zone, slots: seq<Slot>, siblings: map<PostId, Option<int>>,
                 rows: map<PostId, Row>, entries: map<Key, Entry>, parents: map<PostId, Option<int>>)
      ensures View() == State(zone, slots, siblings, rows, entries, parents)
    {
      this.zone, this.slots, this.siblings := zone, slots, siblings;
      this.rows, this.entries, this.parents := rows, entries, parents;
    }

    method SyncPost(p: PostId)
      modifies this`parents
      ensures View() == Synced(old(View()), p)
    {
      parents := parents[p := EarliestChild(rows, siblings, p)];
    }

    method WriteSlot(k: Key, dt: int)
      requires k in entries
      modifies this
      ensures View() == Written(old(View()), k, dt)
    {
      entries := entries[k := entries[k].(slotAt := Some(dt))];
      if k.post in rows {
        rows := rows[k.post := rows[k.post].(at := Some(dt))];
        SyncPost(k.post);
      }
    }

    method EnsureEntry(k: Key)
      modifies this`entries
      ensures View() == WithEntry(old(View()), k)
    {
      if k !in entries {
        entries := entries[k := Entry(NextPosition(entries, k.queue), None)];
      }
    }

    method NextAvailableSlot(now: int, exclude: set<PostId>) returns (r: Option<Candidate>)
      ensures r == BoundedFree(UpcomingSlots(View(), now), Occupied(rows, now, exclude))
    {
      r := SearchFree(zone, slots, now, Occupied(rows, now, exclude));
    }

    /** `ok` is false when the queue-full error is raised. */
    method AddPostNextAvailable(now: int, k: Key) returns (ok: bool)
      modifies this
      ensures match AddedNext(old(View()), now, k)
              case Some(c) => ok && View() == c
              case None => !ok && View() == old(View())
    {
      if k.post in rows && Protected(rows[k.post].status) {
        return true;
      }
      var slotDt := NextAvailableSlot(now, {k.post});
      if slotDt.None? {
        return false;
      }
      EnsureEntry(k);
      WriteSlot(k, slotDt.value.at);
      return true;
    }

    /** One mover's climb from `start`. The lookahead list grows while the loop runs; the
        horizon bounds how far it can, and so bounds the loop. */
    method FindLanding(now: int, avoid: set<int>, claimed: set<int>, start: int, window: seq<Candidate>)
      returns (landing: Option<int>, candidates: seq<Candidate>)
      requires 0 <= start && window <= Upcoming(zone, slots, now)
      ensures landing == FirstLanding(Upcoming(zone, slots, now), avoid, claimed, start)
      ensures candidates <= Upcoming(zone, slots, now)
      ensures landing.Some? ==> landing.value < |candidates|
    {
      ghost var h := Upcoming(zone, slots, now);
      candidates := window;
      var j := start;
      while true
        invariant candidates <= h
        invariant FirstLanding(h, avoid, claimed, j) == FirstLanding(h, avoid, claimed, start)
        decreases |h| - j
      {
        if j >= |candidates| {
          candidates := NextSlotDatetimes(zone, slots, now, j + 2);
          if j >= |candidates| {
            return None, candidates;
          }
        }
        if j !in claimed && !Among(candidates[j], avoid) {
          return Some(j), candidates;
        }
        j := j + 1;
      }
    }

    /** One turn of the loop over the movers; `landed` is where the earlier ones went. */
    method MoveUp(now: int, k: Key, idx: int, avoid: set<int>, claimed: set<int>, window: seq<Candidate>,
                  ghost landed: seq<int>)
      returns (landing: Option<int>, candidates: seq<Candidate>)
      requires k in entries && 0 <= idx && claimed == Taken(landed)
      requires window <= Upcoming(zone, slots, now)
      modifies this
      ensures candidates <= Upcoming(zone, slots, now) && entries.Keys == old(entries.Keys)
      ensures match OneClimbed(Progress(old(View()), landed), k, idx, Upcoming(zone, slots, now), avoid)
              case Some(p) =>
                landing.Some? && View() == p.state && p.landed == landed + [landing.value]
                && Taken(p.landed) == claimed + {landing.value}
              case None => landing.None?
    {
      landing, candidates := FindLanding(now, avoid, claimed, idx + 1, window);
      if landing.Some? {
        WriteSlot(k, candidates[landing.value].at);
        TakenMore(landed, landing.value);
      }
    }

    /** Moves the movers up, from the latest slot down. */
    method Climb(now: int, queue: QueueId, movers: seq<Mover>, avoid: set<int>, window: seq<Candidate>)
      returns (ok: bool)
      requires forall i :: 0 <= i < |movers| ==> Key(queue, movers[i].post) in entries && 0 <= movers[i].idx
      requires window <= Upcoming(zone, slots, now)
      modifies this
      ensures entries.Keys == old(entries.Keys)
      ensures match Climbed(Progress(old(View()), []), queue, movers, Upcoming(zone, slots, now), avoid)
              case Some(p) => ok && View() == p.state
              case None => !ok
    {
      ghost var whole := Climbed(Progress(View(), []), queue, movers, Upcoming(zone, slots, now), avoid);
      ghost var landed: seq<int> := [];
      var candidates, claimed := window, {0};
      var k := 0;
      while k < |movers|
        invariant 0 <= k == |landed| <= |movers|
        invariant Climbed(Progress(View(), landed), queue, movers, Upcoming(zone, slots, now), avoid) == whole
        invariant claimed == Taken(landed)
        invariant candidates <= Upcoming(zone, slots, now)
        invariant entries.Keys == old(entries.Keys)
      {
        var landing: Option<int>;
        landing, candidates :=
          MoveUp(now, Key(queue, movers[k].post), movers[k].idx, avoid, claimed, candidates, landed);
        if landing.None? {
          return false;
        }
        claimed := claimed + {landing.value};
        landed := landed + [landing.value];
        k := k + 1;
      }
      return true;
    }

    /** The branch in which an entry of this queue holds slot 0. */
    method LadderUp(now: int, movable: seq<Held>, candidates: seq<Candidate>, k: Key) returns (ok: bool)
      requires k in entries && candidates != [] && candidates <= UpcomingSlots(View(), now)
      requires forall m :: m in movable ==> Key(k.queue, m.post) in entries
      modifies this
      ensures match Laddered(old(View()), now, movable, candidates, k)
              case Some(c) => ok && View() == c
              case None => !ok
    {
      var movers := Movers(movable, candidates);
      forall i | 0 <= i < |movers|
        ensures Key(k.queue, movers[i].post) in entries && 0 <= movers[i].idx
      {
        MoverIsHeld(movable, candidates, i);
      }
      ok := Climb(now, k.queue, movers, Avoid(rows, now, k.post, movable, candidates), candidates);
      if ok {
        WriteSlot(k, candidates[0].at);
      }
    }

    /** `listing` is the order in which the database returns the queue's entries. */
    method Prioritize(now: int, listing: seq<PostId>, k: Key) returns (ok: bool)
      requires IsListing(entries, k.queue, listing)
      modifies this
      ensures match Prioritized(old(View()), now, listing, k)
              case Some(c) => ok && View() == c
              case None => !ok && View() == old(View())
    {
      var movable := CollectHolders(now, listing, k.post);
      HoldersAreListed(rows, now, listing, k.post);
      var candidates := NextSlotDatetimes(zone, slots, now, |movable| + 2);
      if candidates == [] {
        return false;
      }
      var savedRows, savedEntries, savedParents := rows, entries, parents;
      ok := Place(now, movable, candidates, k);
      if !ok {
        // The error leaves the transaction, which rolls back.
        rows, entries, parents := savedRows, savedEntries, savedParents;
      }
    }

    method Place(now: int, movable: seq<Held>, candidates: seq<Candidate>, k: Key) returns (ok: bool)
      requires candidates != [] && candidates == Window(View(), now, movable)
      requires forall m :: m in movable ==> Key(k.queue, m.post) in entries
      modifies this
      ensures match Placed(old(View()), now, movable, k)
              case Some(c) => ok && View() == c
              case None => !ok
    {
      EnsureEntry(k);
      if !Among(candidates[0], Instants(movable)) {
        ok := TakeFirst(now, k, candidates[0]);
      } else {
        ok := LadderUp(now, movable, candidates, k);
      }
    }

    method CollectHolders(now: int, listing: seq<PostId>, post: PostId) returns (movable: seq<Held>)
      ensures movable == Holders(rows, now, listing, post)
    {
      movable := [];
      var i := 0;
      while i < |listing|
        invariant 0 <= i <= |listing|
        invariant movable == Holders(rows, now, listing[..i], post)
      {
        var p := listing[i];
        assert listing[..i + 1][..i] == listing[..i];
        if p != post && p in rows && Holds(rows[p], now) {
          movable := movable + [Held(p, rows[p].at.value)];
        }
        i := i + 1;
      }
      assert listing[..i] == listing;
    }

    /** Slot 0 when it is not found occupied on the channel, otherwise the next one that is not. */
    method TakeFirst(now: int, k: Key, target: Candidate) returns (ok: bool)
      requires k in entries
      modifies this
      ensures var c, occupied := old(View()), old(Occupied(rows, now, {k.post}));
              if !Among(target, occupied) then ok && View() == Written(c, k, target.at)
              else match BoundedFree(UpcomingSlots(c, now), occupied)
                   case Some(free) => ok && View() == Written(c, k, free.at)
                   case None => !ok
    {
      if Among(target, Occupied(rows, now, {k.post})) {
        var free := NextAvailableSlot(now, {k.post});
        if free.None? {
          return false;
        }
        WriteSlot(k, free.value.at);
        return true;
      }
      WriteSlot(k, target.at);
      return true;
    }

    method RemoveFromQueue(k: Key)
      requires k in entries
      modifies this
      ensures View() == Removed(old(View()), k)
    {
      if k.post in rows && !Protected(rows[k.post].status) && CanDraft(rows[k.post].status) {
        rows := rows[k.post := Row(Draft, None)];
        entries := map e | e in entries && e.post != k.post :: entries[e];
        SyncPost(k.post);
      }
      entries := entries - {k};
      SyncPost(k.post);
    }

    method ReorderQueue(queue: QueueId, ids: seq<Key>)
      modifies this
      ensures View() == Reordered(old(View()), queue, ids)
    {
      var loaded := entries;
      var ordered := CollectNamed(queue, ids);
      var slotted := CollectSlotted(ordered);
      Deal(queue, slotted, Sort(Times(slotted), Itself));
      Reposition(queue, ordered, loaded);
    }

    method Deal(queue: QueueId, slotted: seq<Held>, times: seq<int>)
      requires |times| == |slotted|
      requires forall m :: m in slotted ==> Key(queue, m.post) in entries
      modifies this
      ensures View() == Dealt(old(View()), queue, slotted, times)
    {
      var i := 0;
      while i < |slotted|
        invariant 0 <= i <= |slotted|
        invariant entries.Keys == old(entries.Keys)
        invariant View() == Dealt(old(View()), queue, slotted[..i], times[..i])
      {
        WriteSlot(Key(queue, slotted[i].post), times[i]);
        assert slotted[..i + 1][..i] == slotted[..i] && times[..i + 1][..i] == times[..i];
        i := i + 1;
      }
      assert slotted[..i] == slotted && times[..i] == times;
    }

    method Reposition(queue: QueueId, ordered: seq<PostId>, loaded: map<Key, Entry>)
      requires forall p :: p in ordered ==> Key(queue, p) in entries && Key(queue, p) in loaded
      modifies this`entries
      ensures entries == Positioned(old(entries), loaded, queue, ordered)
    {
      var i := 0;
      while i < |ordered|
        invariant 0 <= i <= |ordered|
        invariant entries == Positioned(old(entries), loaded, queue, ordered[..i])
      {
        var k := Key(queue, ordered[i]);
        assert ordered[..i + 1][..i] == ordered[..i];
        if loaded[k].position != i {
          entries := entries[k := entries[k].(position := i)];
        }
        i := i + 1;
      }
      assert ordered[..i] == ordered;
    }

    method CollectNamed(queue: QueueId, ids: seq<Key>) returns (ordered: seq<PostId>)
      ensures ordered == Named(View(), queue, ids)
    {
      ordered := [];
      var i := 0;
      while i < |ids|
        invariant 0 <= i <= |ids|
        invariant ordered == Named(View(), queue, ids[..i])
      {
        var k := ids[i];
        assert ids[..i + 1][..i] == ids[..i];
        if k.queue == queue && k in entries && !(k.post in rows && Protected(rows[k.post].status)) {
          ordered := ordered + [k.post];
        }
        i := i + 1;
      }
      assert ids[..i] == ids;
    }

    method CollectSlotted(ordered: seq<PostId>) returns (slotted: seq<Held>)
      ensures slotted == Slotted(rows, ordered)
    {
      slotted := [];
      var i := 0;
      while i < |ordered|
        invariant 0 <= i <= |ordered|
        invariant slotted == Slotted(rows, ordered[..i])
      {
        var p := ordered[i];
        assert ordered[..i + 1][..i] == ordered[..i];
        if p in rows && rows[p].at.Some? {
          slotted := slotted + [Held(p, rows[p].at.value)];
        }
        i := i + 1;
      }
      assert ordered[..i] == ordered;
    }
  }
}
