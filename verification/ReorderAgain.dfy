/** Reordering a queue a second time with the same list (apps/calendar/services.py). */
module ReorderAgain {
  import opened Common
  import opened QueueState
  import opened QueueSafety
  import opened Reorder

  // ---------------------------------------------------------------------
  // The second dealing
  // ---------------------------------------------------------------------

  lemma {:induction false} DealtKeepsPositions(c: State, queue: QueueId, held: seq<Held>, times: seq<int>)
    requires |times| == |held|
    ensures forall k :: k in c.entries ==> Dealt(c, queue, held, times).entries[k].position == c.entries[k].position
  {
    if held != [] {
      DealtKeepsPositions(c, queue, held[..|held| - 1], times[..|held| - 1]);
    }
  }

  lemma {:induction false} SameNames(c: State, c': State, queue: QueueId, ids: seq<Key>)
    requires c'.entries.Keys == c.entries.Keys && c'.rows.Keys == c.rows.Keys
    requires forall p :: p in c.rows ==> c'.rows[p].status == c.rows[p].status
    ensures Named(c', queue, ids) == Named(c, queue, ids)
  {
    if ids != [] {
      var k := ids[|ids| - 1];
      SameNames(c, c', queue, ids[..|ids| - 1]);
      assert k in c'.entries.Keys <==> k in c.entries.Keys;
      assert k.post in c'.rows.Keys <==> k.post in c.rows.Keys;
    }
  }

  /** The slotted posts are the same again, each with the instant it holds now. */
  lemma {:induction false} SlottedAgain(rows: map<PostId, Row>, rows': map<PostId, Row>, posts: seq<PostId>)
    requires forall p :: p in posts ==> (p in rows <==> p in rows')
                                        && (p in rows ==> (rows'[p].at.Some? <==> rows[p].at.Some?))
    ensures var held, held' := Slotted(rows, posts), Slotted(rows', posts);
            && |held'| == |held|
            && forall i :: 0 <= i < |held| ==>
                 held'[i].post == held[i].post && held[i].post in rows' && rows'[held[i].post].at == Some(held'[i].at)
  {
    if posts != [] {
      var n := |posts| - 1;
      assert posts == posts[..n] + [posts[n]];
      SlottedAgain(rows, rows', posts[..n]);
    }
  }

  lemma SlottedAfterDealing(rows: map<PostId, Row>, rows': map<PostId, Row>, posts: seq<PostId>, times: seq<int>)
    requires |times| == |Slotted(rows, posts)| && DealtRows(rows, rows', Slotted(rows, posts), times)
    ensures forall p :: p in posts ==> (p in rows <==> p in rows')
                                       && (p in rows ==> (rows'[p].at.Some? <==> rows[p].at.Some?))
  {
    var held := Slotted(rows, posts);
    SlottedMembers(rows, posts);
    forall p | p in posts
      ensures p in rows <==> p in rows'
      ensures p in rows ==> (rows'[p].at.Some? <==> rows[p].at.Some?)
    {
      assert p in rows.Keys <==> p in rows'.Keys;
      if k :| 0 <= k < |held| && held[k].post == p {
        var i := LastOf(held, p);
        assert held[i] in held;
      }
    }
  }

  lemma NamedAgain(c: State, queue: QueueId, ids: seq<Key>)
    ensures Named(Reordered(c, queue, ids), queue, ids) == Named(c, queue, ids)
  {
    ReorderDeals(c, queue, ids);
    DealtRowsMoveOnlyHeld(c.rows, Reordered(c, queue, ids).rows, Movable(c, queue, ids), DealtTimes(c, queue, ids));
    SameNames(c, Reordered(c, queue, ids), queue, ids);
  }

  /** What was dealt out along distinct posts is found along them. */
  lemma FoundAgain(rows: map<PostId, Row>, rows': map<PostId, Row>, posts: seq<PostId>, times: seq<int>)
    requires |times| == |Slotted(rows, posts)| && DealtRows(rows, rows', Slotted(rows, posts), times)
    requires DistinctPosts(Slotted(rows, posts)) && FairDeal(rows, Slotted(rows, posts), times)
    ensures var held, held' := Slotted(rows, posts), Slotted(rows', posts);
            && |held'| == |held| && Times(held') == times
            && forall i :: 0 <= i < |held| ==> held'[i].post == held[i].post
  {
    var held, held' := Slotted(rows, posts), Slotted(rows', posts);
    SlottedAfterDealing(rows, rows', posts, times);
    SlottedAgain(rows, rows', posts);
    ReceivesDealt(rows, rows', held, times);
    forall i | 0 <= i < |held| ensures Times(held')[i] == times[i] {
      assert rows'[held[i].post].at == Some(times[i]);
    }
  }

  /** The second time, the same posts are slotted, and already in order. */
  lemma MovableAgain(c: State, queue: QueueId, ids: seq<Key>)
    requires DistinctPosts(Movable(c, queue, ids))
    ensures var held, held' := Movable(c, queue, ids), Movable(Reordered(c, queue, ids), queue, ids);
            && |held'| == |held| && Times(held') == DealtTimes(c, queue, ids)
            && forall i :: 0 <= i < |held| ==> held'[i].post == held[i].post
  {
    ReorderDeals(c, queue, ids);
    ReorderIsFair(c, queue, ids);
    NamedAgain(c, queue, ids);
    FoundAgain(c.rows, Reordered(c, queue, ids).rows, Named(c, queue, ids), DealtTimes(c, queue, ids));
  }

  lemma SecondDealing(c: State, queue: QueueId, ids: seq<Key>)
    requires DistinctPosts(Movable(c, queue, ids))
    ensures DealtTimes(Reordered(c, queue, ids), queue, ids) == DealtTimes(c, queue, ids)
  {
    MovableAgain(c, queue, ids);
    SortIsSorted(Times(Movable(c, queue, ids)), Itself);
    SortFixesSorted(DealtTimes(c, queue, ids), Itself);
  }

  // ---------------------------------------------------------------------
  // What is in place after the first time
  // ---------------------------------------------------------------------

  /** A write that finds its instant everywhere already. */
  ghost predicate AlreadyWritten(c: State, k: Key, dt: int) {
    && (k in c.entries ==> c.entries[k].slotAt == Some(dt))
    && (k.post in c.rows ==>
          c.rows[k.post].at == Some(dt) && k.post in c.parents
          && c.parents[k.post] == EarliestChild(c.rows, c.siblings, k.post))
  }

  lemma WrittenAgain(c: State, k: Key, dt: int)
    requires AlreadyWritten(c, k, dt)
    ensures Written(c, k, dt) == c
  {
    if k in c.entries {
      assert c.entries[k := c.entries[k].(slotAt := Some(dt))] == c.entries;
    }
    if k.post in c.rows {
      assert c.rows[k.post := c.rows[k.post].(at := Some(dt))] == c.rows;
      assert c.parents[k.post := c.parents[k.post]] == c.parents;
    }
  }

  lemma {:induction false} DealtIsWritten(c: State, queue: QueueId, held: seq<Held>, times: seq<int>)
    requires |times| == |held|
    ensures var c' := Dealt(c, queue, held, times);
            forall i :: IsLast(held, i) ==> AlreadyWritten(c', Key(queue, held[i].post), times[i])
  {
    if held != [] {
      var n := |held| - 1;
      DealtIsWritten(c, queue, held[..n], times[..n]);
      var prior, c' := Dealt(c, queue, held[..n], times[..n]), Dealt(c, queue, held, times);
      forall i | IsLast(held, i) && i < n ensures AlreadyWritten(c', Key(queue, held[i].post), times[i]) {
        assert IsLast(held[..n], i) && held[..n][i] == held[i] && times[..n][i] == times[i];
        StaysWritten(prior, Key(queue, held[i].post), times[i], Key(queue, held[n].post), times[n]);
      }
    }
  }

  lemma StaysWritten(c: State, k: Key, dt: int, other: Key, t: int)
    requires AlreadyWritten(c, k, dt) && other.post != k.post
    ensures AlreadyWritten(Written(c, other, t), k, dt)
  {
  }

  lemma {:induction false} DealtAgain(c: State, queue: QueueId, held: seq<Held>, times: seq<int>)
    requires |times| == |held|
    requires forall i :: 0 <= i < |held| ==> AlreadyWritten(c, Key(queue, held[i].post), times[i])
    ensures Dealt(c, queue, held, times) == c
  {
    if held != [] {
      var n := |held| - 1;
      forall i | 0 <= i < n ensures AlreadyWritten(c, Key(queue, held[..n][i].post), times[..n][i]) {
        assert AlreadyWritten(c, Key(queue, held[i].post), times[i]);
      }
      DealtAgain(c, queue, held[..n], times[..n]);
      WrittenAgain(c, Key(queue, held[n].post), times[n]);
    }
  }

  lemma {:induction false} PositionedKeepsSlots(entries: map<Key, Entry>, loaded: map<Key, Entry>, queue: QueueId,
                                                posts: seq<PostId>)
    requires forall p :: p in posts ==> Key(queue, p) in entries && Key(queue, p) in loaded
    ensures var r := Positioned(entries, loaded, queue, posts);
            forall k :: k in entries ==> r[k].slotAt == entries[k].slotAt
                                         && (k.queue != queue || k.post !in posts ==> r[k] == entries[k])
  {
    if posts != [] {
      assert posts == posts[..|posts| - 1] + [posts[|posts| - 1]];
      PositionedKeepsSlots(entries, loaded, queue, posts[..|posts| - 1]);
    }
  }

  /** With distinct posts, every named entry ends at its place in the order. */
  lemma {:induction false} PositionsSettle(entries: map<Key, Entry>, loaded: map<Key, Entry>, queue: QueueId,
                                           posts: seq<PostId>)
    requires forall p :: p in posts ==> Key(queue, p) in entries && Key(queue, p) in loaded
    requires forall p :: p in posts ==> entries[Key(queue, p)].position == loaded[Key(queue, p)].position
    requires Distinct(posts)
    ensures var r := Positioned(entries, loaded, queue, posts);
            forall i :: 0 <= i < |posts| ==> r[Key(queue, posts[i])].position == i
  {
    if posts != [] {
      var n := |posts| - 1;
      PositionsSettle(entries, loaded, queue, posts[..n]);
      PositionedKeepsSlots(entries, loaded, queue, posts[..n]);
      assert posts[n] !in posts[..n];
    }
  }

  lemma {:induction false} PositionedAgain(entries: map<Key, Entry>, queue: QueueId, posts: seq<PostId>)
    requires forall p :: p in posts ==> Key(queue, p) in entries
    requires forall i :: 0 <= i < |posts| ==> entries[Key(queue, posts[i])].position == i
    ensures Positioned(entries, entries, queue, posts) == entries
  {
    if posts != [] {
      var n := |posts| - 1;
      assert forall i :: 0 <= i < n ==> posts[..n][i] == posts[i];
      PositionedAgain(entries, queue, posts[..n]);
    }
  }

  /** After one reordering every instant is in place: in entry, child and aggregate, at the
      post's last position. The positions are in place exactly when nothing is named twice. */
  lemma ReorderSettles(c: State, queue: QueueId, ids: seq<Key>)
    ensures var c', held, times := Reordered(c, queue, ids), Movable(c, queue, ids), DealtTimes(c, queue, ids);
            && (forall i :: IsLast(held, i) ==> AlreadyWritten(c', Key(queue, held[i].post), times[i]))
            && (Distinct(Named(c, queue, ids)) <==>
                  forall i :: 0 <= i < |Named(c, queue, ids)| ==>
                    c'.entries[Key(queue, Named(c, queue, ids)[i])].position == i)
  {
    var named, held, times := Named(c, queue, ids), Movable(c, queue, ids), DealtTimes(c, queue, ids);
    var c1, c' := Dealt(c, queue, held, times), Reordered(c, queue, ids);
    DealtIsWritten(c, queue, held, times);
    DealtKeepsPositions(c, queue, held, times);
    PositionedKeepsSlots(c1.entries, c.entries, queue, named);
    forall i | IsLast(held, i) ensures AlreadyWritten(c', Key(queue, held[i].post), times[i]) {
      assert AlreadyWritten(c1, Key(queue, held[i].post), times[i]);
    }
    if Distinct(named) {
      PositionsSettle(c1.entries, c.entries, queue, named);
    }
  }

  // ---------------------------------------------------------------------
  // Reordering twice
  // ---------------------------------------------------------------------

  /** The greatest position below `n` at which the post is named. */
  lemma {:induction false} LastNamed(posts: seq<PostId>, p: PostId, n: nat, some: nat) returns (i: nat)
    requires some < n <= |posts| && posts[some] == p
    ensures some <= i < n && posts[i] == p && forall j :: i < j < n ==> posts[j] != p
  {
    if posts[n - 1] == p {
      i := n - 1;
    } else {
      i := LastNamed(posts, p, n - 1, some);
    }
  }

  /** The last place that differs from the loaded position is what is written. */
  lemma {:induction false} LastWrite(entries: map<Key, Entry>, loaded: map<Key, Entry>, queue: QueueId,
                                     posts: seq<PostId>, i: nat)
    requires forall p :: p in posts ==> Key(queue, p) in entries && Key(queue, p) in loaded
    requires i < |posts| && loaded[Key(queue, posts[i])].position != i
    requires forall j :: i < j < |posts| && posts[j] == posts[i] ==> loaded[Key(queue, posts[i])].position == j
    ensures Positioned(entries, loaded, queue, posts)[Key(queue, posts[i])].position == i
  {
    var n := |posts| - 1;
    if i < n {
      LastWrite(entries, loaded, queue, posts[..n], i);
    }
  }

  /** A post named twice never keeps its position. */
  lemma NamedTwiceMoves(entries: map<Key, Entry>, queue: QueueId, posts: seq<PostId>, a: nat, b: nat)
    requires forall p :: p in posts ==> Key(queue, p) in entries
    requires a < b < |posts| && posts[a] == posts[b]
    ensures Positioned(entries, entries, queue, posts)[Key(queue, posts[a])].position
         != entries[Key(queue, posts[a])].position
  {
    var p := posts[a];
    var last := LastNamed(posts, p, |posts|, b);
    if entries[Key(queue, p)].position != last {
      LastWrite(entries, entries, queue, posts, last);
    } else {
      var prior := LastNamed(posts, p, last, a);
      LastWrite(entries, entries, queue, posts, prior);
    }
  }

  /** Reordering with the same list a second time changes nothing at all, exactly when no
      unprotected entry of the queue is named twice. Otherwise that entry's position goes
      back and forth with every repetition. */
  lemma ReorderTwiceIff(c: State, queue: QueueId, ids: seq<Key>)
    ensures Reordered(Reordered(c, queue, ids), queue, ids) == Reordered(c, queue, ids)
            <==> Distinct(Named(c, queue, ids))
  {
    NamedAgain(c, queue, ids);
    if Distinct(Named(c, queue, ids)) {
      ReorderTwice(c, queue, ids);
    } else {
      RepeatedNamesMove(Reordered(c, queue, ids), queue, ids);
    }
  }

  /** The second dealing writes nothing new. */
  lemma DealtTwice(c: State, queue: QueueId, ids: seq<Key>)
    requires DistinctPosts(Movable(c, queue, ids))
    ensures var c' := Reordered(c, queue, ids);
            Dealt(c', queue, Movable(c', queue, ids), DealtTimes(c', queue, ids)) == c'
  {
    var c', held, times := Reordered(c, queue, ids), Movable(c, queue, ids), DealtTimes(c, queue, ids);
    var held' := Movable(c', queue, ids);
    ReorderSettles(c, queue, ids);
    MovableAgain(c, queue, ids);
    SecondDealing(c, queue, ids);
    forall i | 0 <= i < |held'| ensures AlreadyWritten(c', Key(queue, held'[i].post), times[i]) {
      assert IsLast(held, i);
    }
    DealtAgain(c', queue, held', times);
  }

  lemma ReorderTwice(c: State, queue: QueueId, ids: seq<Key>)
    requires Distinct(Named(c, queue, ids))
    ensures Reordered(Reordered(c, queue, ids), queue, ids) == Reordered(c, queue, ids)
  {
    SlottedAreDistinct(c.rows, Named(c, queue, ids));
    DealtTwice(c, queue, ids);
    ReorderSettles(c, queue, ids);
    NamedAgain(c, queue, ids);
    PositionedAgain(Reordered(c, queue, ids).entries, queue, Named(c, queue, ids));
  }

  lemma RepeatedNamesMove(c: State, queue: QueueId, ids: seq<Key>)
    requires !Distinct(Named(c, queue, ids))
    ensures Reordered(c, queue, ids) != c
  {
    var named, held, times := Named(c, queue, ids), Movable(c, queue, ids), DealtTimes(c, queue, ids);
    var a, b :| 0 <= a < b < |named| && named[a] == named[b];
    var c1 := Dealt(c, queue, held, times);
    if Reordered(c, queue, ids) == c {
      DealtKeepsPositions(c, queue, held, times);
      PositionedKeepsSlots(c1.entries, c.entries, queue, named);
      SamePositions(c1.entries, c.entries, c.entries, queue, named);
      NamedTwiceMoves(c.entries, queue, named, a, b);
    }
  }

  /** Positions come out the same whatever the slots are. */
  lemma {:induction false} SamePositions(entries: map<Key, Entry>, others: map<Key, Entry>, loaded: map<Key, Entry>,
                                         queue: QueueId, posts: seq<PostId>)
    requires entries.Keys == others.Keys
    requires forall k :: k in entries ==> entries[k].position == others[k].position
    requires forall p :: p in posts ==> Key(queue, p) in entries && Key(queue, p) in loaded
    ensures var r, r' := Positioned(entries, loaded, queue, posts), Positioned(others, loaded, queue, posts);
            forall k :: k in entries ==> r[k].position == r'[k].position
  {
    if posts != [] {
      SamePositions(entries, others, loaded, queue, posts[..|posts| - 1]);
    }
  }
}
