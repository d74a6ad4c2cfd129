/** Drag-reordering a queue deals the instants its posts already hold out again
    (apps/calendar/services.py). The requested list may name an entry more than once. */
module Reorder {
  import opened Common
  import opened QueueState
  import opened QueueSafety

  lemma {:induction false} NamedAreDistinct(c: State, queue: QueueId, ids: seq<Key>)
    requires Distinct(ids)
    ensures Distinct(Named(c, queue, ids))
  {
    if ids != [] {
      var n := |ids| - 1;
      var prior := Named(c, queue, ids[..n]);
      NamedAreDistinct(c, queue, ids[..n]);
      NamedMembers(c, queue, ids[..n]);
      forall i | 0 <= i < |prior| && ids[n].queue == queue ensures prior[i] != ids[n].post {
        assert prior[i] in prior;
        assert Key(queue, prior[i]) in ids[..n];
      }
    }
  }

  lemma {:induction false} NamedMembers(c: State, queue: QueueId, ids: seq<Key>)
    ensures forall p :: p in Named(c, queue, ids)
              <==> Key(queue, p) in ids && Key(queue, p) in c.entries && !(p in c.rows && Protected(c.rows[p].status))
  {
    if ids != [] {
      var n := |ids| - 1;
      assert ids == ids[..n] + [ids[n]];
      NamedMembers(c, queue, ids[..n]);
    }
  }

  lemma {:induction false} SlottedAreDistinct(rows: map<PostId, Row>, posts: seq<PostId>)
    requires Distinct(posts)
    ensures DistinctPosts(Slotted(rows, posts))
  {
    if posts != [] {
      var n := |posts| - 1;
      var prior := Slotted(rows, posts[..n]);
      SlottedAreDistinct(rows, posts[..n]);
      forall i | 0 <= i < |prior| ensures prior[i].post != posts[n] {
        assert prior[i] in prior;
      }
    }
  }

  lemma {:induction false} SlottedMembers(rows: map<PostId, Row>, posts: seq<PostId>)
    ensures forall p :: (exists m :: m in Slotted(rows, posts) && m.post == p)
              <==> p in posts && p in rows && rows[p].at.Some?
  {
    if posts != [] {
      var n := |posts| - 1;
      assert posts == posts[..n] + [posts[n]];
      SlottedMembers(rows, posts[..n]);
      forall p | p in posts && p in rows && rows[p].at.Some?
        ensures exists m :: m in Slotted(rows, posts) && m.post == p
      {
        if p == posts[n] {
          assert Held(p, rows[p].at.value) in Slotted(rows, posts);
        } else {
          var m :| m in Slotted(rows, posts[..n]) && m.post == p;
          assert m in Slotted(rows, posts);
        }
      }
    }
  }

  // ---------------------------------------------------------------------
  // The effect, for any list
  // ---------------------------------------------------------------------

  /** No later position is the same post's, so what is dealt here stays. */
  predicate IsLast(held: seq<Held>, i: int) {
    0 <= i < |held| && forall j :: i < j < |held| ==> held[j].post != held[i].post
  }

  lemma {:induction false} LastOf(held: seq<Held>, p: PostId) returns (i: int)
    requires exists k :: 0 <= k < |held| && held[k].post == p
    ensures IsLast(held, i) && held[i].post == p
  {
    var n := |held| - 1;
    if held[n].post == p {
      i := n;
    } else {
      i := LastOf(held[..n], p);
      assert forall j :: i < j < n ==> held[j].post == held[..n][j].post;
    }
  }

  lemma LastOfPost(held: seq<Held>, i: int, j: int)
    requires IsLast(held, i) && IsLast(held, j) && i != j
    ensures held[i].post != held[j].post
  {
  }

  /** The rows after dealing the instants: each post has what its last position got, and
      nobody else has changed. */
  ghost predicate DealtRows(rows: map<PostId, Row>, rows': map<PostId, Row>, held: seq<Held>, times: seq<int>)
    requires |times| == |held|
  {
    && rows'.Keys == rows.Keys
    && (forall i :: IsLast(held, i) && held[i].post in rows ==>
          rows'[held[i].post] == rows[held[i].post].(at := Some(times[i])))
    && (forall p :: p in rows && (forall i :: 0 <= i < |held| ==> held[i].post != p) ==> rows'[p] == rows[p])
  }

  lemma {:induction false} DealingMovesRows(c: State, queue: QueueId, held: seq<Held>, times: seq<int>)
    requires |times| == |held|
    ensures var c' := Dealt(c, queue, held, times);
            && DealtRows(c.rows, c'.rows, held, times)
            && (InSync(c) ==> InSync(c'))
            && SameSetup(c, c')
  {
    if held != [] {
      var n := |held| - 1;
      var prior := Dealt(c, queue, held[..n], times[..n]);
      DealingMovesRows(c, queue, held[..n], times[..n]);
      WrittenFacts(prior, Key(queue, held[n].post), times[n]);
      OneMoreDealt(c.rows, prior.rows, Dealt(c, queue, held, times).rows, held, times);
    }
  }

  lemma OneMoreDealt(rows: map<PostId, Row>, mid: map<PostId, Row>, rows': map<PostId, Row>, held: seq<Held>,
                     times: seq<int>)
    requires held != [] && |times| == |held|
    requires var n := |held| - 1;
             && DealtRows(rows, mid, held[..n], times[..n]) && OnlyMoved(mid, rows', {held[n].post})
             && (held[n].post in mid ==> rows'[held[n].post].at == Some(times[n]))
    ensures DealtRows(rows, rows', held, times)
  {
    var n := |held| - 1;
    forall i | IsLast(held, i) && held[i].post in rows
      ensures rows'[held[i].post] == rows[held[i].post].(at := Some(times[i]))
    {
      var p := held[i].post;
      if i < n {
        assert IsLast(held[..n], i);
      } else {
        StatusIsKept(rows, mid, held[..n], times[..n], p);
      }
    }
    forall p | p in rows && (forall i :: 0 <= i < |held| ==> held[i].post != p) ensures rows'[p] == rows[p] {
      assert forall i :: 0 <= i < n ==> held[..n][i].post != p;
    }
  }

  lemma StatusIsKept(rows: map<PostId, Row>, rows': map<PostId, Row>, held: seq<Held>, times: seq<int>, p: PostId)
    requires |times| == |held| && DealtRows(rows, rows', held, times) && p in rows
    ensures p in rows' && rows'[p].status == rows[p].status
  {
    assert p in rows'.Keys;
    if k :| 0 <= k < |held| && held[k].post == p {
      var i := LastOf(held, p);
    }
  }

  function Movable(c: State, queue: QueueId, ids: seq<Key>): seq<Held> {
    Slotted(c.rows, Named(c, queue, ids))
  }

  /** The instants in the order in which they are dealt out. */
  function DealtTimes(c: State, queue: QueueId, ids: seq<Key>): (r: seq<int>)
    ensures |r| == |Movable(c, queue, ids)|
  {
    Sort(Times(Movable(c, queue, ids)), Itself)
  }

  /** Whatever the list, each named slotted post ends at the instant dealt to its last
      position, and aggregates stay in step. */
  lemma ReorderDeals(c: State, queue: QueueId, ids: seq<Key>)
    ensures DealtRows(c.rows, Reordered(c, queue, ids).rows, Movable(c, queue, ids), DealtTimes(c, queue, ids))
    ensures InSync(c) ==> InSync(Reordered(c, queue, ids))
    ensures SameSetup(c, Reordered(c, queue, ids))
  {
    DealingMovesRows(c, queue, Movable(c, queue, ids), DealtTimes(c, queue, ids));
  }

  /** Which posts take part. */
  lemma WhoIsReordered(c: State, queue: QueueId, ids: seq<Key>, p: PostId)
    ensures (exists m :: m in Movable(c, queue, ids) && m.post == p)
            <==> Key(queue, p) in ids && Key(queue, p) in c.entries
                 && p in c.rows && !Protected(c.rows[p].status) && c.rows[p].at.Some?
  {
    NamedMembers(c, queue, ids);
    SlottedMembers(c.rows, Named(c, queue, ids));
  }

  /** The instants dealt are those of live posts. */
  ghost predicate FairDeal(rows: map<PostId, Row>, held: seq<Held>, times: seq<int>) {
    && |times| == |held| && multiset(times) == multiset(Times(held))
    && forall i :: 0 <= i < |held| ==>
         held[i].post in rows && rows[held[i].post].at == Some(held[i].at) && !Protected(rows[held[i].post].status)
  }

  lemma ReorderIsFair(c: State, queue: QueueId, ids: seq<Key>)
    ensures FairDeal(c.rows, Movable(c, queue, ids), DealtTimes(c, queue, ids))
  {
    var held := Movable(c, queue, ids);
    SortPermutes(Times(held), Itself);
    forall i | 0 <= i < |held|
      ensures held[i].post in c.rows && c.rows[held[i].post].at == Some(held[i].at)
              && !Protected(c.rows[held[i].post].status)
    {
      assert held[i] in held;
      WhoIsReordered(c, queue, ids, held[i].post);
    }
  }

  /** History is never touched. */
  lemma ReorderKeepsHistory(c: State, queue: QueueId, ids: seq<Key>)
    ensures HistoryKept(c.rows, Reordered(c, queue, ids).rows)
  {
    ReorderDeals(c, queue, ids);
    ReorderIsFair(c, queue, ids);
    forall p | p in c.rows && Protected(c.rows[p].status) ensures Reordered(c, queue, ids).rows[p] == c.rows[p] {
      assert forall i :: 0 <= i < |Movable(c, queue, ids)| ==> Movable(c, queue, ids)[i].post != p;
    }
  }

  // ---------------------------------------------------------------------
  // Double booking
  // ---------------------------------------------------------------------

  /** No instant after `now` is left to two posts. */
  ghost predicate LeftApart(held: seq<Held>, times: seq<int>, now: int)
    requires |times| == |held|
  {
    forall i, j :: IsLast(held, i) && IsLast(held, j) && i != j && times[i] > now ==> times[i] != times[j]
  }

  /** Future instants stay distinct exactly when those dealt to the last positions of the
      named posts are. */
  lemma ReorderSafeIff(c: State, now: int, queue: QueueId, ids: seq<Key>)
    requires NoDoubleBooking(c.rows, now)
    ensures NoDoubleBooking(Reordered(c, queue, ids).rows, now)
            <==> LeftApart(Movable(c, queue, ids), DealtTimes(c, queue, ids), now)
  {
    var held, times := Movable(c, queue, ids), DealtTimes(c, queue, ids);
    var rows' := Reordered(c, queue, ids).rows;
    ReorderDeals(c, queue, ids);
    ReorderIsFair(c, queue, ids);
    if LeftApart(held, times, now) {
      LeftApartIsSafe(c.rows, now, rows', held, times);
    }
    if NoDoubleBooking(rows', now) {
      forall i, j | IsLast(held, i) && IsLast(held, j) && i != j && times[i] > now ensures times[i] != times[j] {
        LastOfPost(held, i, j);
        var p, q := held[i].post, held[j].post;
        assert rows'[p] == c.rows[p].(at := Some(times[i])) && rows'[q] == c.rows[q].(at := Some(times[j]));
        assert times[j] == times[i] ==> Holds(rows'[p], now) && Holds(rows'[q], now);
      }
    }
  }

  lemma LeftApartIsSafe(rows: map<PostId, Row>, now: int, rows': map<PostId, Row>, held: seq<Held>, times: seq<int>)
    requires NoDoubleBooking(rows, now) && FairDeal(rows, held, times) && DealtRows(rows, rows', held, times)
    requires LeftApart(held, times, now)
    ensures NoDoubleBooking(rows', now)
  {
    forall p, q | p in rows && q in rows && p != q && Holds(rows'[p], now) && Holds(rows'[q], now)
      ensures rows'[p].at != rows'[q].at
    {
      if i :| 0 <= i < |held| && held[i].post == p {
        DealtMissesOthers(rows, now, rows', held, times, p, q);
      } else if j :| 0 <= j < |held| && held[j].post == q {
        DealtMissesOthers(rows, now, rows', held, times, q, p);
      }
    }
  }

  lemma DealtMissesOthers(rows: map<PostId, Row>, now: int, rows': map<PostId, Row>, held: seq<Held>,
                          times: seq<int>, p: PostId, q: PostId)
    requires NoDoubleBooking(rows, now) && FairDeal(rows, held, times) && DealtRows(rows, rows', held, times)
    requires LeftApart(held, times, now)
    requires exists k :: 0 <= k < |held| && held[k].post == p
    requires p in rows && q in rows && q != p && Holds(rows'[p], now) && Holds(rows'[q], now)
    ensures rows'[p].at != rows'[q].at
  {
    var i := LastOf(held, p);
    if k :| 0 <= k < |held| && held[k].post == q {
      var j := LastOf(held, q);
      assert times[i] != times[j];
    } else {
      HeldBySomeone(held, times, i);
      var a :| 0 <= a < |held| && held[a].at == times[i];
      assert held[a].post != q;
    }
  }

  lemma HeldBySomeone(held: seq<Held>, times: seq<int>, i: int)
    requires 0 <= i < |times| && multiset(times) == multiset(Times(held))
    ensures exists a :: 0 <= a < |held| && held[a].at == times[i]
  {
    assert times[i] in times;
    SameMembers(times, Times(held));
    var a :| 0 <= a < |Times(held)| && Times(held)[a] == times[i];
  }

  /** In particular when no slotted post is named twice. */
  lemma NamedOnceIsSafe(c: State, now: int, queue: QueueId, ids: seq<Key>)
    requires NoDoubleBooking(c.rows, now) && DistinctPosts(Movable(c, queue, ids))
    ensures LeftApart(Movable(c, queue, ids), DealtTimes(c, queue, ids), now)
    ensures NoDoubleBooking(Reordered(c, queue, ids).rows, now)
  {
    var held, times := Movable(c, queue, ids), DealtTimes(c, queue, ids);
    ReorderIsFair(c, queue, ids);
    forall i, j | 0 <= i < |held| && 0 <= j < |held| && i != j && times[i] > now ensures times[i] != times[j] {
      DealtOnce(c.rows, now, held, times, i, j);
    }
    ReorderSafeIff(c, now, queue, ids);
  }

  /** A future instant is dealt at most once. */
  lemma DealtOnce(rows: map<PostId, Row>, now: int, held: seq<Held>, times: seq<int>, i: int, j: int)
    requires NoDoubleBooking(rows, now) && FairDeal(rows, held, times) && DistinctPosts(held)
    requires 0 <= i < |held| && 0 <= j < |held| && i != j && times[i] > now
    ensures times[i] != times[j]
  {
    forall a, b | 0 <= a < b < |held| && held[a].at > now ensures held[a].at != held[b].at {
      assert held[a].post != held[b].post;
    }
    CountedTwice(times, times[i]);
    CountedTwice(Times(held), times[i]);
  }

  /** A list in which this fails: with two posts p and q in the queue, p the earlier, the
      list q, q, p leaves both at q's instant. */
  lemma RepeatedIdsDoubleBook(c: State, now: int, queue: QueueId, p: PostId, q: PostId)
    requires NoDoubleBooking(c.rows, now)
    requires p in c.rows && q in c.rows && Key(queue, p) in c.entries && Key(queue, q) in c.entries
    requires Holds(c.rows[p], now) && Holds(c.rows[q], now) && c.rows[p].at.value < c.rows[q].at.value
    ensures !NoDoubleBooking(Reordered(c, queue, [Key(queue, q), Key(queue, q), Key(queue, p)]).rows, now)
  {
    var ids := [Key(queue, q), Key(queue, q), Key(queue, p)];
    ThreeDealt(c, queue, p, q);
    assert IsLast(Movable(c, queue, ids), 1) && IsLast(Movable(c, queue, ids), 2);
    ReorderSafeIff(c, now, queue, ids);
  }

  lemma ThreeDealt(c: State, queue: QueueId, p: PostId, q: PostId)
    requires p in c.rows && q in c.rows && Key(queue, p) in c.entries && Key(queue, q) in c.entries
    requires !Protected(c.rows[p].status) && !Protected(c.rows[q].status)
    requires c.rows[p].at.Some? && c.rows[q].at.Some? && c.rows[p].at.value < c.rows[q].at.value
    ensures var ids := [Key(queue, q), Key(queue, q), Key(queue, p)];
            var a, b := c.rows[p].at.value, c.rows[q].at.value;
            && Movable(c, queue, ids) == [Held(q, b), Held(q, b), Held(p, a)]
            && DealtTimes(c, queue, ids) == [a, b, b]
  {
    var a, b := c.rows[p].at.value, c.rows[q].at.value;
    NamedThree(c, queue, Key(queue, q), Key(queue, q), Key(queue, p));
    SlottedThree(c.rows, q, q, p);
    SortThree(b, b, a);
    assert Times([Held(q, b), Held(q, b), Held(p, a)]) == [b, b, a];
  }

  lemma NamedThree(c: State, queue: QueueId, x: Key, y: Key, z: Key)
    requires forall k :: k in {x, y, z} ==> k.queue == queue && k in c.entries && k.post in c.rows
                                            && !Protected(c.rows[k.post].status)
    ensures Named(c, queue, [x, y, z]) == [x.post, y.post, z.post]
  {
    assert x in {x, y, z} && y in {x, y, z} && z in {x, y, z};
    var ids := [x, y, z];
    assert ids[..2] == [x, y] && ids[..2][..1] == [x] && ids[..2][..1][..0] == [];
    assert Named(c, queue, [x]) == [x.post];
    assert Named(c, queue, [x, y]) == [x.post, y.post];
  }

  lemma SlottedThree(rows: map<PostId, Row>, x: PostId, y: PostId, z: PostId)
    requires forall p :: p in {x, y, z} ==> p in rows && rows[p].at.Some?
    ensures Slotted(rows, [x, y, z])
            == [Held(x, rows[x].at.value), Held(y, rows[y].at.value), Held(z, rows[z].at.value)]
  {
    assert x in {x, y, z} && y in {x, y, z} && z in {x, y, z};
    var posts := [x, y, z];
    assert posts[..2] == [x, y] && posts[..2][..1] == [x] && posts[..2][..1][..0] == [];
    assert Slotted(rows, [x]) == [Held(x, rows[x].at.value)];
    assert Slotted(rows, [x, y]) == [Held(x, rows[x].at.value), Held(y, rows[y].at.value)];
  }

  lemma SortThree(x: int, y: int, z: int)
    requires z < x <= y
    ensures Sort([x, y, z], Itself) == [z, x, y]
  {
    var s := [x, y, z];
    assert s[..2] == [x, y] && s[..2][..1] == [x] && s[..2][..1][..0] == [];
    assert Sort([x], Itself) == [x];
    assert Sort([x, y], Itself) == [x, y];
    assert [x, y][..1] == [x] && [x][..0] == [];
    assert InsertSorted([x], z, Itself) == [z, x];
  }

  // ---------------------------------------------------------------------
  // Conservation
  // ---------------------------------------------------------------------

  ghost predicate Receives(rows: map<PostId, Row>, held: seq<Held>, times: seq<int>) {
    && |times| == |held|
    && forall i :: 0 <= i < |held| ==> held[i].post in rows && rows[held[i].post].at == Some(times[i])
  }

  /** The same instants, each held as often as before; ascending along the requested
      order; every post that is not a named, unprotected, slotted entry keeps its own. */
  ghost predicate Permuted(rows: map<PostId, Row>, rows': map<PostId, Row>, held: seq<Held>) {
    && Receives(rows, held, Times(held))
    && (exists times :: Receives(rows', held, times)
          && multiset(times) == multiset(Times(held))
          && forall i, j :: 0 <= i < j < |held| ==> times[i] <= times[j])
    && OnlyMoved(rows, rows', set m | m in held :: m.post)
  }

  lemma ReorderPermutes(c: State, queue: QueueId, ids: seq<Key>)
    requires DistinctPosts(Movable(c, queue, ids))
    ensures Permuted(c.rows, Reordered(c, queue, ids).rows, Movable(c, queue, ids))
  {
    var held, times := Movable(c, queue, ids), DealtTimes(c, queue, ids);
    var rows' := Reordered(c, queue, ids).rows;
    ReorderDeals(c, queue, ids);
    ReorderIsFair(c, queue, ids);
    DealtTimesAscend(c, queue, ids);
    ReceivesDealt(c.rows, rows', held, times);
    DealtRowsMoveOnlyHeld(c.rows, rows', held, times);
  }

  lemma DealtTimesAscend(c: State, queue: QueueId, ids: seq<Key>)
    ensures var times := DealtTimes(c, queue, ids);
            forall i, j :: 0 <= i < j < |times| ==> times[i] <= times[j]
  {
    var times := DealtTimes(c, queue, ids);
    SortIsSorted(Times(Movable(c, queue, ids)), Itself);
    forall i, j | 0 <= i < j < |times| ensures times[i] <= times[j] {
      assert Itself(times[i]) <= Itself(times[j]);
    }
  }

  lemma ReceivesDealt(rows: map<PostId, Row>, rows': map<PostId, Row>, held: seq<Held>, times: seq<int>)
    requires FairDeal(rows, held, times) && DealtRows(rows, rows', held, times) && DistinctPosts(held)
    ensures Receives(rows', held, times)
  {
    forall i | 0 <= i < |held| ensures held[i].post in rows' && rows'[held[i].post].at == Some(times[i]) {
      assert IsLast(held, i);
    }
  }

  lemma DealtRowsMoveOnlyHeld(rows: map<PostId, Row>, rows': map<PostId, Row>, held: seq<Held>, times: seq<int>)
    requires |times| == |held| && DealtRows(rows, rows', held, times)
    ensures OnlyMoved(rows, rows', set m | m in held :: m.post)
  {
    forall p | p in rows ensures rows'[p].status == rows[p].status {
      StatusIsKept(rows, rows', held, times, p);
    }
  }

  function Image(positions: set<int>, times: seq<int>): set<int> {
    set i | i in positions && 0 <= i < |times| :: times[i]
  }

  /** Positions hold as many values as there are positions exactly when the values differ. */
  lemma {:induction false} ImageSize(positions: set<int>, times: seq<int>)
    requires forall i :: i in positions ==> 0 <= i < |times|
    ensures |Image(positions, times)| <= |positions|
    ensures |Image(positions, times)| == |positions|
            <==> forall i, j :: i in positions && j in positions && i != j ==> times[i] != times[j]
  {
    if positions != {} {
      var x := Member(positions);
      var others := positions - {x};
      ImageSize(others, times);
      assert Image(positions, times) == Image(others, times) + {times[x]};
      if times[x] in Image(others, times) {
        assert Image(positions, times) == Image(others, times);
        var y :| y in others && 0 <= y < |times| && times[y] == times[x];
      } else {
        assert forall i :: i in others ==> times[i] in Image(others, times);
      }
    }
  }

  lemma {:induction false} SameSize(a: set<int>, b: set<int>)
    requires a <= b && |a| == |b|
    ensures a == b
  {
    if b - a != {} {
      var x := Member(b - a);
      assert a <= b - {x};
      SubsetSize(a, b - {x});
    } else {
      assert forall x :: x in b ==> x in a || x in b - a;
    }
  }

  function LastPositions(held: seq<Held>): set<int> {
    set i | 0 <= i < |held| && IsLast(held, i)
  }

  /** The instants the named posts hold, each post counted once. */
  function InstantsHeld(held: seq<Held>): set<int> {
    Image(LastPositions(held), Times(held))
  }

  function InstantsLeft(held: seq<Held>, times: seq<int>): set<int>
    requires |times| == |held|
  {
    Image(LastPositions(held), times)
  }

  /** If the named posts hold different instants, none of these is lost exactly when the
      instants left to them are different again. */
  lemma ReorderLosesNothingIff(c: State, queue: QueueId, ids: seq<Key>)
    requires var held := Movable(c, queue, ids);
             forall i, j :: IsLast(held, i) && IsLast(held, j) && i != j ==> held[i].at != held[j].at
    ensures var held, times := Movable(c, queue, ids), DealtTimes(c, queue, ids);
            && InstantsLeft(held, times) <= InstantsHeld(held)
            && (InstantsLeft(held, times) == InstantsHeld(held)
                <==> forall i, j :: IsLast(held, i) && IsLast(held, j) && i != j ==> times[i] != times[j])
  {
    var held, times := Movable(c, queue, ids), DealtTimes(c, queue, ids);
    ReorderIsFair(c, queue, ids);
    forall x | x in InstantsLeft(held, times) ensures x in InstantsHeld(held) {
      var i :| i in LastPositions(held) && times[i] == x;
      HeldBySomeone(held, times, i);
      var a :| 0 <= a < |held| && held[a].at == times[i];
      var l := LastOf(held, held[a].post);
      assert l in LastPositions(held) && held[l].at == held[a].at;
    }
    ImageSize(LastPositions(held), Times(held));
    ImageSize(LastPositions(held), times);
    if |InstantsLeft(held, times)| == |InstantsHeld(held)| {
      SameSize(InstantsLeft(held, times), InstantsHeld(held));
    }
  }

  // ---------------------------------------------------------------------
  // Past instants
  // ---------------------------------------------------------------------

  function PastCount(times: seq<int>, now: int): (n: nat)
    ensures n <= |times|
  {
    if times == [] then 0
    else PastCount(times[..|times| - 1], now) + (if times[|times| - 1] <= now then 1 else 0)
  }

  lemma {:induction false} InsertCounts(s: seq<int>, x: int, now: int)
    ensures PastCount(InsertSorted(s, x, Itself), now) == PastCount(s, now) + (if x <= now then 1 else 0)
  {
    if s == [] || Itself(s[|s| - 1]) <= Itself(x) {
      assert (s + [x])[..|s|] == s;
    } else {
      var n := |s| - 1;
      InsertCounts(s[..n], x, now);
      var r := InsertSorted(s[..n], x, Itself);
      assert (r + [s[n]])[..|r|] == r;
    }
  }

  lemma {:induction false} SortCounts(s: seq<int>, now: int)
    ensures PastCount(Sort(s, Itself), now) == PastCount(s, now)
  {
    if s != [] {
      SortCounts(s[..|s| - 1], now);
      InsertCounts(Sort(s[..|s| - 1], Itself), s[|s| - 1], now);
    }
  }

  /** In an ascending sequence the past instants come first. */
  lemma {:induction false} PastComesFirst(times: seq<int>, now: int, i: int)
    requires forall j, k :: 0 <= j < k < |times| ==> times[j] <= times[k]
    requires 0 <= i < |times|
    ensures times[i] > now <==> i >= PastCount(times, now)
  {
    var n := |times| - 1;
    if i < n {
      PastComesFirst(times[..n], now, i);
    } else if n > 0 {
      PastComesFirst(times[..n], now, n - 1);
    }
  }

  /** Every named post that holds a future instant keeps one. */
  ghost predicate FutureKept(rows': map<PostId, Row>, held: seq<Held>, now: int) {
    forall i :: IsLast(held, i) && held[i].at > now ==>
      held[i].post in rows' && rows'[held[i].post].at.Some? && rows'[held[i].post].at.value > now
  }

  /** None of them stands, at its last position, among the first places, which get the past
      instants. */
  ghost predicate PastPlacesAvoided(held: seq<Held>, now: int) {
    forall i :: IsLast(held, i) && held[i].at > now ==> i >= PastCount(Times(held), now)
  }

  /** The one holds exactly when the other does. */
  lemma ReorderKeepsFutureIff(c: State, now: int, queue: QueueId, ids: seq<Key>)
    ensures FutureKept(Reordered(c, queue, ids).rows, Movable(c, queue, ids), now)
            <==> PastPlacesAvoided(Movable(c, queue, ids), now)
  {
    var held, times := Movable(c, queue, ids), DealtTimes(c, queue, ids);
    var rows' := Reordered(c, queue, ids).rows;
    ReorderDeals(c, queue, ids);
    ReorderIsFair(c, queue, ids);
    DealtTimesAscend(c, queue, ids);
    SortCounts(Times(held), now);
    forall i | IsLast(held, i)
      ensures held[i].post in rows' && rows'[held[i].post].at == Some(times[i])
      ensures times[i] > now <==> i >= PastCount(Times(held), now)
    {
      assert held[i].post in rows'.Keys;
      PastComesFirst(times, now, i);
    }
  }

  /** For posts named once: exactly when none of them precedes one whose time has passed. */
  lemma NamedOnceKeepsFutureIff(c: State, now: int, queue: QueueId, ids: seq<Key>)
    requires DistinctPosts(Movable(c, queue, ids))
    ensures var held := Movable(c, queue, ids);
            FutureKept(Reordered(c, queue, ids).rows, held, now)
            <==> forall i, j :: 0 <= i < j < |held| && held[i].at > now ==> held[j].at > now
  {
    ReorderKeepsFutureIff(c, now, queue, ids);
    OnceAvoidsIff(Movable(c, queue, ids), now);
  }

  lemma OnceAvoidsIff(held: seq<Held>, now: int)
    requires DistinctPosts(held)
    ensures PastPlacesAvoided(held, now) <==> forall i, j :: 0 <= i < j < |held| && held[i].at > now ==> held[j].at > now
  {
    assert forall i :: 0 <= i < |held| ==> IsLast(held, i);
    PastFirstIff(Times(held), now);
    assert forall i :: 0 <= i < |held| ==> Times(held)[i] == held[i].at;
  }

  lemma PastFirstIff(times: seq<int>, now: int)
    ensures (forall i :: 0 <= i < |times| && times[i] > now ==> i >= PastCount(times, now))
            <==> forall i, j :: 0 <= i < j < |times| && times[i] > now ==> times[j] > now
  {
    if forall i, j :: 0 <= i < j < |times| && times[i] > now ==> times[j] > now {
      forall i | 0 <= i < |times| && times[i] > now ensures i >= PastCount(times, now) {
        CountUpTo(times, now, i);
      }
    } else {
      var i, j :| 0 <= i < j < |times| && times[i] > now && times[j] <= now;
      if i >= PastCount(times, now) && forall k :: 0 <= k < |times| && times[k] > now ==> k >= PastCount(times, now) {
        CountPastOf(times, now, PastCount(times, now), j);
      }
    }
  }

  lemma {:induction false} CountUpTo(times: seq<int>, now: int, i: nat)
    requires i <= |times| && forall k :: i <= k < |times| ==> times[k] > now
    ensures PastCount(times, now) <= i
  {
    if i < |times| {
      CountUpTo(times[..|times| - 1], now, i);
    }
  }

  lemma {:induction false} CountPastOf(times: seq<int>, now: int, m: nat, j: nat)
    requires m <= j < |times| && times[j] <= now && forall k :: 0 <= k < m ==> times[k] <= now
    ensures PastCount(times, now) > m
  {
    var n := |times| - 1;
    if j < n {
      CountPastOf(times[..n], now, m, j);
    } else {
      AllPast(times[..n], now, m);
    }
  }

  lemma {:induction false} AllPast(times: seq<int>, now: int, m: nat)
    requires m <= |times| && forall k :: 0 <= k < m ==> times[k] <= now
    ensures PastCount(times, now) >= m
  {
    if m > 0 {
      var n := |times| - 1;
      AllPast(times[..n], now, if m <= n then m else n);
    }
  }
}
