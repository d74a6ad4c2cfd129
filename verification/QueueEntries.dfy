/** What each queue operation does to the queue entries, and to the post it is about, with
    the fields written out (apps/calendar/services.py). */
module QueueEntries {
  import opened Common
  import opened PostingSlots
  import opened QueueState
  import opened QueueSafety
  import Ladder
  import opened Reorder
  import opened ReorderAgain

  // ---------------------------------------------------------------------
  // Adding
  // ---------------------------------------------------------------------

  /** The position of an entry that is there already, or one past the last of its queue. */
  ghost predicate Appended(entries: map<Key, Entry>, k: Key, position: int) {
    if k in entries then position == entries[k].position
    else
      && (forall e :: e in entries && e.queue == k.queue ==> entries[e].position < position)
      && (position == 1 || exists e :: e in entries && e.queue == k.queue && entries[e].position + 1 == position)
  }

  lemma EntryPosition(c: State, k: Key)
    ensures Appended(c.entries, k, WithEntry(c, k).entries[k].position)
  {
    if k !in c.entries {
      var used := set e | e in c.entries && e.queue == k.queue :: c.entries[e].position;
      assert NextPosition(c.entries, k.queue) == Greatest(used) + 1;
    }
  }

  /** Only the post's own entry changes: it shows the instant `t`, at its old position or
      behind all others. */
  ghost predicate OwnEntryAt(c: State, c': State, k: Key, t: int) {
    && c'.entries.Keys == c.entries.Keys + {k}
    && c'.entries[k].slotAt == Some(t) && Appended(c.entries, k, c'.entries[k].position)
    && (forall e :: e in c.entries && e != k ==> c'.entries[e] == c.entries[e])
  }

  lemma WriteOwnEntry(c: State, k: Key, t: int)
    ensures OwnEntryAt(c, Written(WithEntry(c, k), k, t), k, t)
  {
    EntryPosition(c, k);
    WrittenFacts(WithEntry(c, k), k, t);
  }

  /** Adding changes nothing for a published or publishing post; otherwise the entry shows
      the instant that the row gets, and every other entry stays. */
  lemma AddWritesEntry(c: State, now: int, k: Key)
    requires AddedNext(c, now, k).Some?
    ensures var c' := AddedNext(c, now, k).value;
            if k.post in c.rows && (c.rows[k.post].status.Published? || c.rows[k.post].status.Publishing?) then c' == c
            else exists t :: IsUpcoming(c, now, t) && OwnEntryAt(c, c', k, t)
                             && (k.post in c.rows ==> k.post in c'.rows && c'.rows[k.post].at == Some(t))
  {
    if !(k.post in c.rows && Protected(c.rows[k.post].status)) {
      var slot := SlotFound(c, now, k.post).value;
      SlotFoundFacts(c, now, k.post);
      WriteOwnEntry(c, k, slot.at);
      assert IsUpcoming(c, now, slot.at);
    }
  }

  // ---------------------------------------------------------------------
  // Prioritizing
  // ---------------------------------------------------------------------

  /** The entries once the movers from index `from` on have landed on `js`. */
  ghost predicate MovedEntries(entries: map<Key, Entry>, entries': map<Key, Entry>, queue: QueueId,
                               movers: seq<Mover>, from: nat, js: seq<int>, h: seq<Candidate>)
  {
    && |js| == |movers|
    && entries'.Keys == entries.Keys
    && (forall i :: from <= i < |movers| && Key(queue, movers[i].post) in entries ==>
          0 <= js[i] < |h|
          && entries'[Key(queue, movers[i].post)] == entries[Key(queue, movers[i].post)].(slotAt := Some(h[js[i]].at)))
    && (forall e :: e in entries && (forall i :: from <= i < |movers| ==> e != Key(queue, movers[i].post)) ==>
          entries'[e] == entries[e])
  }

  lemma OneMoreEntry(entries: map<Key, Entry>, mid: map<Key, Entry>, entries': map<Key, Entry>, queue: QueueId,
                     movers: seq<Mover>, n: nat, js: seq<int>, h: seq<Candidate>)
    requires n < |movers| == |js| && 0 <= js[n] < |h|
    requires forall i, j :: 0 <= i < j < |movers| ==> movers[i].post != movers[j].post
    requires var k := Key(queue, movers[n].post);
             mid == if k in entries then entries[k := entries[k].(slotAt := Some(h[js[n]].at))] else entries
    requires MovedEntries(mid, entries', queue, movers, n + 1, js, h)
    ensures MovedEntries(entries, entries', queue, movers, n, js, h)
  {
  }

  lemma {:induction false} ClimbMovesEntries(p: Progress, queue: QueueId, movers: seq<Mover>, h: seq<Candidate>,
                                             avoid: set<int>)
    requires |p.landed| <= |movers|
    requires forall i :: 0 <= i < |movers| ==> 0 <= movers[i].idx
    requires forall i, j :: 0 <= i < j < |movers| ==> movers[i].post != movers[j].post
    ensures match Climbed(p, queue, movers, h, avoid)
            case None => true
            case Some(r) => MovedEntries(p.state.entries, r.state.entries, queue, movers, |p.landed|, r.landed, h)
    decreases |movers| - |p.landed|
  {
    var n := |p.landed|;
    if n < |movers| {
      var step := OneClimbed(p, Key(queue, movers[n].post), movers[n].idx, h, avoid);
      if step.Some? {
        ClimbLands(step.value, queue, movers, h, avoid);
        ClimbMovesEntries(step.value, queue, movers, h, avoid);
        var r := Climbed(step.value, queue, movers, h, avoid);
        if r.Some? {
          OneMoreEntry(p.state.entries, step.value.state.entries, r.value.state.entries, queue, movers, n,
                       r.value.landed, h);
        }
      }
    }
  }

  /** The queue's other live posts that are still to come. */
  ghost predicate Waiting(rows: map<PostId, Row>, now: int, post: PostId, q: PostId) {
    && q != post && q in rows && !rows[q].status.Published? && !rows[q].status.Publishing?
    && rows[q].at.Some? && rows[q].at.value > now
  }

  ghost function WaitingIn(rows: map<PostId, Row>, now: int, post: PostId, listing: seq<PostId>): set<PostId> {
    set q | q in listing && Waiting(rows, now, post, q)
  }

  lemma OneMoreWaiting(rows: map<PostId, Row>, now: int, post: PostId, listing: seq<PostId>, q: PostId)
    requires q !in listing
    ensures |WaitingIn(rows, now, post, listing + [q])|
         == |WaitingIn(rows, now, post, listing)| + (if Waiting(rows, now, post, q) then 1 else 0)
  {
    var prior := WaitingIn(rows, now, post, listing);
    assert WaitingIn(rows, now, post, listing + [q]) == if Waiting(rows, now, post, q) then prior + {q} else prior;
  }

  lemma {:induction false} HoldersAreCounted(rows: map<PostId, Row>, now: int, listing: seq<PostId>, post: PostId)
    requires Distinct(listing)
    ensures |Holders(rows, now, listing, post)| == |WaitingIn(rows, now, post, listing)|
  {
    if listing != [] {
      var n := |listing| - 1;
      HoldersAreCounted(rows, now, listing[..n], post);
      assert listing == listing[..n] + [listing[n]];
      OneMoreWaiting(rows, now, post, listing[..n], listing[n]);
    }
  }

  /** Who moves: the waiting posts whose instant is that of one of the first slots, two more
      slots than there are such posts. */
  lemma MoversIff(c: State, now: int, listing: seq<PostId>, k: Key, p: PostId)
    requires IsListing(c.entries, k.queue, listing)
    ensures var h, n := UpcomingSlots(c, now), |WaitingIn(c.rows, now, k.post, listing)|;
            IsMover(LadderMovers(c, now, listing, k), p)
            <==> Key(k.queue, p) in c.entries && Waiting(c.rows, now, k.post, p)
                 && exists i :: 0 <= i < |h| && i < n + 2 && h[i] == Candidate(c.rows[p].at.value, true)
  {
    var h, held := UpcomingSlots(c, now), Holders(c.rows, now, listing, k.post);
    var window := Window(c, now, held);
    WhoMoves(c, now, listing, k, p);
    HoldersAreCounted(c.rows, now, listing, k.post);
    assert forall i :: 0 <= i < |window| ==> window[i] == h[i];
    if Waiting(c.rows, now, k.post, p) {
      var x := Candidate(c.rows[p].at.value, true);
      if i :| 0 <= i < |h| && i < |held| + 2 && h[i] == x {
        assert window[i] == x;
      }
    }
  }

  /** After a ladder the entries show what the rows say: the post's slot 0, each mover's new
      instant. Positions stay, and so does every other entry, in this queue and elsewhere. */
  ghost predicate LadderEntries(c: State, c': State, k: Key, movers: seq<Mover>, first: int) {
    && c'.entries.Keys == c.entries.Keys + {k}
    && c'.entries[k].slotAt == Some(first) && Appended(c.entries, k, c'.entries[k].position)
    && (forall p :: IsMover(movers, p) ==>
          && Key(k.queue, p) in c.entries && p in c'.rows
          && c'.entries[Key(k.queue, p)] == Entry(c.entries[Key(k.queue, p)].position, c'.rows[p].at))
    && (forall e :: e in c.entries && e != k && !(e.queue == k.queue && IsMover(movers, e.post)) ==>
          c'.entries[e] == c.entries[e])
  }

  lemma PrioritizeLaddersEntries(c: State, now: int, listing: seq<PostId>, k: Key)
    requires NoDoubleBooking(c.rows, now) && IsListing(c.entries, k.queue, listing)
    requires FirstSlotQueued(c, now, listing, k) && Prioritized(c, now, listing, k).Some?
    ensures LadderEntries(c, Prioritized(c, now, listing, k).value, k, LadderMovers(c, now, listing, k),
                          UpcomingSlots(c, now)[0].at)
  {
    var h, movers := UpcomingSlots(c, now), LadderMovers(c, now, listing, k);
    var avoid := LadderAvoid(c, now, listing, k);
    LadderOutcome(c, now, listing, k);
    forall i | 0 <= i < |movers|
      ensures 0 <= movers[i].idx && movers[i].post != k.post && movers[i].post in c.rows
              && Key(k.queue, movers[i].post) in c.entries
    {
      assert FairMover(c, now, k, movers[i], h, avoid);
      assert IsMover(movers, movers[i].post);
      WhoMoves(c, now, listing, k, movers[i].post);
    }
    var start := Progress(WithEntry(c, k), []);
    PrioritizedIsClimbed(c, now, listing, k);
    ClimbLands(start, k.queue, movers, h, avoid);
    ClimbMovesEntries(start, k.queue, movers, h, avoid);
    var p, c' := Climbed(start, k.queue, movers, h, avoid).value, Prioritized(c, now, listing, k).value;
    EntryPosition(c, k);
    WrittenFacts(p.state, k, h[0].at);
    LaddersAfterClimb(c, c', p.state.entries, k, movers, p.landed, h);
  }

  lemma LaddersAfterClimb(c: State, c': State, mid: map<Key, Entry>, k: Key, movers: seq<Mover>, js: seq<int>,
                          h: seq<Candidate>)
    requires h != [] && MovedEntries(WithEntry(c, k).entries, mid, k.queue, movers, 0, js, h)
    requires k in mid && c'.entries == mid[k := Entry(mid[k].position, Some(h[0].at))]
    requires LadderRows(c.rows, c'.rows, k.post, movers, js, h)
    requires forall i :: 0 <= i < |movers| ==>
               movers[i].post != k.post && movers[i].post in c.rows && Key(k.queue, movers[i].post) in c.entries
    requires Appended(c.entries, k, WithEntry(c, k).entries[k].position)
    ensures LadderEntries(c, c', k, movers, h[0].at)
  {
    MoversShow(c, c'.rows, mid, k, movers, js, h);
    OthersStay(c, mid, k, movers, js, h);
    assert forall i :: 0 <= i < |movers| ==> k != Key(k.queue, movers[i].post);
    OwnWriteCompletes(c, c', mid, k, movers, h[0].at);
  }

  ghost predicate MoversShown(c: State, rows': map<PostId, Row>, entries: map<Key, Entry>, k: Key, movers: seq<Mover>) {
    forall p :: IsMover(movers, p) ==>
      && Key(k.queue, p) in c.entries && Key(k.queue, p) in entries && p in rows' && p != k.post
      && entries[Key(k.queue, p)] == Entry(c.entries[Key(k.queue, p)].position, rows'[p].at)
  }

  ghost predicate OthersKept(c: State, entries: map<Key, Entry>, k: Key, movers: seq<Mover>) {
    forall e :: e in c.entries && e != k && !(e.queue == k.queue && IsMover(movers, e.post)) ==>
      e in entries && entries[e] == c.entries[e]
  }

  lemma OwnWriteCompletes(c: State, c': State, mid: map<Key, Entry>, k: Key, movers: seq<Mover>, first: int)
    requires mid.Keys == c.entries.Keys + {k} && Appended(c.entries, k, mid[k].position)
    requires c'.entries == mid[k := Entry(mid[k].position, Some(first))]
    requires MoversShown(c, c'.rows, mid, k, movers) && OthersKept(c, mid, k, movers)
    ensures LadderEntries(c, c', k, movers, first)
  {
  }

  lemma MoversShow(c: State, rows': map<PostId, Row>, mid: map<Key, Entry>, k: Key, movers: seq<Mover>, js: seq<int>,
                   h: seq<Candidate>)
    requires MovedEntries(WithEntry(c, k).entries, mid, k.queue, movers, 0, js, h)
    requires LadderRows(c.rows, rows', k.post, movers, js, h)
    requires forall i :: 0 <= i < |movers| ==>
               movers[i].post != k.post && movers[i].post in c.rows && Key(k.queue, movers[i].post) in c.entries
    ensures MoversShown(c, rows', mid, k, movers)
  {
    forall p | IsMover(movers, p)
      ensures Key(k.queue, p) in c.entries && Key(k.queue, p) in mid && p in rows' && p != k.post
      ensures mid[Key(k.queue, p)] == Entry(c.entries[Key(k.queue, p)].position, rows'[p].at)
    {
      var i :| 0 <= i < |movers| && movers[i].post == p;
      assert p in rows'.Keys && Key(k.queue, p) in mid.Keys;
    }
  }

  lemma OthersStay(c: State, mid: map<Key, Entry>, k: Key, movers: seq<Mover>, js: seq<int>, h: seq<Candidate>)
    requires MovedEntries(WithEntry(c, k).entries, mid, k.queue, movers, 0, js, h)
    ensures OthersKept(c, mid, k, movers)
  {
    forall e | e in c.entries && e != k && !(e.queue == k.queue && IsMover(movers, e.post))
      ensures e in mid && mid[e] == c.entries[e]
    {
      forall i | 0 <= i < |movers| ensures e != Key(k.queue, movers[i].post) {
        assert e == Key(k.queue, movers[i].post) ==> IsMover(movers, e.post);
      }
      assert e in mid.Keys;
    }
  }

  /** Without a ladder only the post's own entry changes. */
  lemma PrioritizeFillsEntry(c: State, now: int, listing: seq<PostId>, k: Key)
    requires !FirstSlotQueued(c, now, listing, k) && Prioritized(c, now, listing, k).Some?
    ensures var c' := Prioritized(c, now, listing, k).value;
            exists t :: IsUpcoming(c, now, t) && OwnEntryAt(c, c', k, t)
                        && (k.post in c.rows ==> k.post in c'.rows && c'.rows[k.post].at == Some(t))
  {
    FillsSlotFound(c, now, listing, k);
    SlotFoundFacts(c, now, k.post);
    var slot := SlotFound(c, now, k.post).value;
    WriteOwnEntry(c, k, slot.at);
    assert IsUpcoming(c, now, slot.at);
  }

  // ---------------------------------------------------------------------
  // Removing
  // ---------------------------------------------------------------------

  /** A removed post becomes a draft without a time, so that it cannot turn due through its
      parent's time; one that is awaiting review, is a draft, or is being or has been
      published stays as it is. The aggregate is the earliest of what is left. */
  lemma RemovedIsDrafted(c: State, k: Key)
    requires k.post in c.rows
    ensures var c', row := Removed(c, k), c.rows[k.post];
            var others := if k.post in c.siblings then c.siblings[k.post] else None;
            && k.post in c'.rows && k.post in c'.parents
            && match row.status
               case Approved | ChangesRequested | Rejected | Scheduled | Failed | OnHold =>
                 c'.rows[k.post] == Row(Draft, None) && c'.parents[k.post] == others
               case Draft | PendingReview | PendingClient | Publishing | Published =>
                 c'.rows[k.post] == row && c'.parents[k.post] == Earlier(row.at, others)
  {
  }

  // ---------------------------------------------------------------------
  // Reordering
  // ---------------------------------------------------------------------

  lemma {:induction false} DealtKeepsOthers(c: State, queue: QueueId, held: seq<Held>, times: seq<int>, e: Key)
    requires |times| == |held| && e in c.entries
    requires e.queue != queue || forall i :: 0 <= i < |held| ==> held[i].post != e.post
    ensures Dealt(c, queue, held, times).entries[e] == c.entries[e]
  {
    if held != [] {
      var n := |held| - 1;
      DealtKeepsOthers(c, queue, held[..n], times[..n], e);
    }
  }

  /** Entries of other queues, and entries that are not named or belong to a published or
      publishing post, stay as they are; a named entry whose post has no time keeps its
      instant. */
  lemma ReorderKeepsEntries(c: State, queue: QueueId, ids: seq<Key>, e: Key)
    requires e in c.entries
    ensures var c' := Reordered(c, queue, ids);
            && c'.entries.Keys == c.entries.Keys
            && (e.queue != queue || e !in ids
                || (e.post in c.rows && (c.rows[e.post].status.Published? || c.rows[e.post].status.Publishing?)) ==>
                  c'.entries[e] == c.entries[e])
            && (e.post !in c.rows || c.rows[e.post].at.None? ==> c'.entries[e].slotAt == c.entries[e].slotAt)
  {
    var named, held, times := Named(c, queue, ids), Movable(c, queue, ids), DealtTimes(c, queue, ids);
    var c1 := Dealt(c, queue, held, times);
    NamedMembers(c, queue, ids);
    PositionedKeepsSlots(c1.entries, c.entries, queue, named);
    var unnamed := e.queue != queue || e !in ids || (e.post in c.rows && Protected(c.rows[e.post].status));
    if unnamed || e.post !in c.rows || c.rows[e.post].at.None? {
      forall i | 0 <= i < |held| && e.queue == queue ensures held[i].post != e.post {
        assert held[i] in held;
        WhoIsReordered(c, queue, ids, held[i].post);
      }
      DealtKeepsOthers(c, queue, held, times, e);
    }
  }
}
