/** One channel's rows as values, and what each queue operation makes of them
    (apps/calendar/services.py). `Channel` proves its methods against these functions. */
module QueueState {
  import opened Common
  import opened PostingSlots
  import Ladder

  type PostId = int
  type QueueId = int

  datatype Status =
    | Draft | PendingReview | PendingClient | Approved | ChangesRequested | Rejected
    | Scheduled | Publishing | Published | Failed | OnHold

  /** History: never moved, never occupying a future slot. */
  predicate Protected(s: Status) {
    s.Published? || s.Publishing?
  }

  /** The statuses with an edge to draft (apps/composer/models.py). */
  predicate CanDraft(s: Status) {
    s.Approved? || s.ChangesRequested? || s.Rejected? || s.Scheduled? || s.Failed? || s.OnHold?
  }

  /** The platform post of a post on this channel; there is at most one. */
  datatype Row = Row(status: Status, at: Option<int>)

  /** Queue entries are unique per queue and post. */
  datatype Key = Key(queue: QueueId, post: PostId)

  datatype Entry = Entry(position: nat, slotAt: Option<int>)

  /** `siblings` is the earliest time among a post's children on other channels, which no
      operation here touches; `parents` is the post's own aggregate time. */
  datatype State = State(
    zone: Zone,
    slots: seq<Slot>,
    siblings: map<PostId, Option<int>>,
    rows: map<PostId, Row>,
    entries: map<Key, Entry>,
    parents: map<PostId, Option<int>>)

  /** The row claims a future instant. */
  predicate Holds(row: Row, now: int) {
    !Protected(row.status) && row.at.Some? && row.at.value > now
  }

  function Occupied(rows: map<PostId, Row>, now: int, exclude: set<PostId>): set<int> {
    set p | p in rows && p !in exclude && Holds(rows[p], now) :: rows[p].at.value
  }

  function UpcomingSlots(c: State, now: int): seq<Candidate> {
    Upcoming(c.zone, c.slots, now)
  }

  /** The earliest time among a post's children. */
  function EarliestChild(rows: map<PostId, Row>, siblings: map<PostId, Option<int>>, p: PostId): Option<int> {
    Earlier(if p in rows then rows[p].at else None, if p in siblings then siblings[p] else None)
  }

  function Synced(c: State, p: PostId): State {
    c.(parents := c.parents[p := EarliestChild(c.rows, c.siblings, p)])
  }

  // ---------------------------------------------------------------------
  // Shared steps
  // ---------------------------------------------------------------------

  function Written(c: State, k: Key, dt: int): (r: State)
    ensures r.entries.Keys == c.entries.Keys && r.rows.Keys == c.rows.Keys
  {
    var c1 := if k in c.entries then c.(entries := c.entries[k := c.entries[k].(slotAt := Some(dt))]) else c;
    if k.post in c.rows then
      Synced(c1.(rows := c1.rows[k.post := c1.rows[k.post].(at := Some(dt))]), k.post)
    else c1
  }

  function Greatest(s: set<nat>): (m: nat)
    ensures forall x :: x in s ==> x <= m
    ensures s != {} ==> m in s
  {
    if s == {} then 0
    else
      GreatestExists(s);
      var m :| m in s && forall x :: x in s ==> x <= m;
      m
  }

  lemma {:induction false} GreatestExists(s: set<nat>)
    requires s != {}
    ensures exists m :: m in s && forall x :: x in s ==> x <= m
  {
    var y :| y in s;
    if s != {y} {
      GreatestExists(s - {y});
      var m :| m in s - {y} && forall x :: x in s - {y} ==> x <= m;
      assert forall x :: x in s ==> x == y || x in s - {y};
      assert (if m < y then y else m) in s;
    }
  }

  /** One past the greatest position in the queue, so a new entry is appended. */
  function NextPosition(entries: map<Key, Entry>, queue: QueueId): (n: nat)
    ensures forall k :: k in entries && k.queue == queue ==> entries[k].position < n
  {
    var used := set k | k in entries && k.queue == queue :: entries[k].position;
    assert forall k :: k in entries && k.queue == queue ==> entries[k].position in used;
    Greatest(used) + 1
  }

  function WithEntry(c: State, k: Key): (r: State)
    ensures k in r.entries && r.rows == c.rows
  {
    if k in c.entries then c
    else c.(entries := c.entries[k := Entry(NextPosition(c.entries, k.queue), None)])
  }

  // ---------------------------------------------------------------------
  // Next available
  // ---------------------------------------------------------------------

  /** None is the queue-full error, which leaves the channel as it was. */
  function AddedNext(c: State, now: int, k: Key): Option<State> {
    if k.post in c.rows && Protected(c.rows[k.post].status) then Some(c)
    else
      match BoundedFree(UpcomingSlots(c, now), Occupied(c.rows, now, {k.post}))
      case None => None
      case Some(slot) => Some(Written(WithEntry(c, k), k, slot.at))
  }

  // ---------------------------------------------------------------------
  // Prioritize
  // ---------------------------------------------------------------------

  datatype Held = Held(post: PostId, at: int)
  datatype Mover = Mover(idx: int, post: PostId)

  /** The order in which the database lists a queue's entries: each once. */
  ghost predicate IsListing(entries: map<Key, Entry>, queue: QueueId, listing: seq<PostId>) {
    Distinct(listing) && forall p :: p in listing <==> Key(queue, p) in entries
  }

  /** The queue's entries that hold a future instant, apart from `post`. */
  function Holders(rows: map<PostId, Row>, now: int, listing: seq<PostId>, post: PostId): seq<Held> {
    if listing == [] then []
    else
      var n := |listing| - 1;
      var p := listing[n];
      Holders(rows, now, listing[..n], post)
      + (if p != post && p in rows && Holds(rows[p], now) then [Held(p, rows[p].at.value)] else [])
  }

  function Instants(held: seq<Held>): set<int> {
    set m | m in held :: m.at
  }

  /** The index that a dictionary from slots to their indices gives a stored time. */
  function IndexIn(window: seq<Candidate>, dt: int): (r: Option<nat>)
    ensures r.Some? ==> r.value < |window| && window[r.value] == Candidate(dt, true)
    ensures r.None? ==> forall i :: 0 <= i < |window| ==> window[i] != Candidate(dt, true)
  {
    if window == [] then None
    else if window[0] == Candidate(dt, true) then Some(0)
    else
      match IndexIn(window[1..], dt)
      case None => None
      case Some(i) => Some(i + 1)
  }

  function InWindow(held: seq<Held>, window: seq<Candidate>): seq<Mover> {
    if held == [] then []
    else
      var n := |held| - 1;
      InWindow(held[..n], window)
      + (match IndexIn(window, held[n].at) case Some(i) => [Mover(i, held[n].post)] case None => [])
  }

  /** Sorting by this key puts the latest slot first. */
  function LatestFirst(m: Mover): int {
    -(m.idx as int)
  }

  function Movers(held: seq<Held>, window: seq<Candidate>): seq<Mover> {
    Sort(InWindow(held, window), LatestFirst)
  }

  function OldIndices(movers: seq<Mover>): (r: seq<int>)
    ensures |r| == |movers|
    ensures forall i :: 0 <= i < |r| ==> r[i] == movers[i].idx
  {
    seq(|movers|, i requires 0 <= i < |movers| => movers[i].idx)
  }

  /** Everything occupied on the channel except the post's own slot and the movers'. */
  function Avoid(rows: map<PostId, Row>, now: int, post: PostId, held: seq<Held>, window: seq<Candidate>): set<int> {
    Occupied(rows, now, {post}) - set m | m in held && IndexIn(window, m.at).Some? :: m.at
  }

  /** The channel after some movers have been written, and where they landed. */
  datatype Progress = Progress(state: State, landed: seq<int>)

  function OneClimbed(p: Progress, k: Key, old': int, h: seq<Candidate>, avoid: set<int>): Option<Progress>
    requires 0 <= old'
  {
    match Ladder.FirstLanding(h, avoid, Ladder.Taken(p.landed), old' + 1)
    case None => None
    case Some(j) => Some(Progress(Written(p.state, k, h[j].at), p.landed + [j]))
  }

  /** The remaining movers written in turn, each to its first landing; nothing when one of
      them runs off the horizon. */
  function Climbed(p: Progress, queue: QueueId, movers: seq<Mover>, h: seq<Candidate>, avoid: set<int>)
    : Option<Progress>
    requires forall i :: 0 <= i < |movers| ==> 0 <= movers[i].idx
    decreases |movers| - |p.landed|
  {
    if |p.landed| >= |movers| then Some(p)
    else
      var m := movers[|p.landed|];
      match OneClimbed(p, Key(queue, m.post), m.idx, h, avoid)
      case None => None
      case Some(p') => Climbed(p', queue, movers, h, avoid)
  }

  function Laddered(c: State, now: int, held: seq<Held>, window: seq<Candidate>, k: Key): Option<State>
    requires UpcomingSlots(c, now) != []
  {
    var h := UpcomingSlots(c, now);
    var movers := Movers(held, window);
    MoverIndices(held, window);
    match Climbed(Progress(c, []), k.queue, movers, h, Avoid(c.rows, now, k.post, held, window))
    case None => None
    case Some(p) => Some(Written(p.state, k, h[0].at))
  }

  function Window(c: State, now: int, held: seq<Held>): seq<Candidate> {
    Prefix(UpcomingSlots(c, now), |held| + 2)
  }

  /** The post placed at slot 0, or at the next gap, given this queue's holders. */
  function Placed(c: State, now: int, held: seq<Held>, k: Key): Option<State>
    requires UpcomingSlots(c, now) != []
  {
    var h, occupied := UpcomingSlots(c, now), Occupied(c.rows, now, {k.post});
    if Among(h[0], Instants(held)) then
      Laddered(WithEntry(c, k), now, held, Window(c, now, held), k)
    else if Among(h[0], occupied) then
      match BoundedFree(h, occupied)
      case None => None
      case Some(free) => Some(Written(WithEntry(c, k), k, free.at))
    else
      Some(Written(WithEntry(c, k), k, h[0].at))
  }

  function Prioritized(c: State, now: int, listing: seq<PostId>, k: Key): Option<State> {
    if UpcomingSlots(c, now) == [] then None
    else Placed(c, now, Holders(c.rows, now, listing, k.post), k)
  }

  lemma {:induction false} HoldersAreListed(rows: map<PostId, Row>, now: int, listing: seq<PostId>, post: PostId)
    ensures var held := Holders(rows, now, listing, post);
            forall m :: m in held <==>
              m.post in listing && m.post != post && m.post in rows && Holds(rows[m.post], now)
              && rows[m.post].at == Some(m.at)
  {
    if listing != [] {
      var n := |listing| - 1;
      assert listing == listing[..n] + [listing[n]];
      HoldersAreListed(rows, now, listing[..n], post);
    }
  }

  lemma {:induction false} InWindowMembers(held: seq<Held>, window: seq<Candidate>)
    ensures forall m :: m in InWindow(held, window)
              <==> exists e :: e in held && IndexIn(window, e.at) == Some(m.idx) && e.post == m.post
  {
    if held != [] {
      var n := |held| - 1;
      assert held == held[..n] + [held[n]];
      InWindowMembers(held[..n], window);
      forall m ensures m in InWindow(held, window)
                       <==> exists e :: e in held && IndexIn(window, e.at) == Some(m.idx) && e.post == m.post
      {
        if e :| e in held && IndexIn(window, e.at) == Some(m.idx) && e.post == m.post {
          assert e in held[..n] || e == held[n];
        }
        if e :| e in held[..n] && IndexIn(window, e.at) == Some(m.idx) && e.post == m.post {
          assert e in held;
        }
      }
    }
  }

  /** The movers are the holders whose instant lies in the window, at its index there. */
  lemma MoversAreHeld(held: seq<Held>, window: seq<Candidate>)
    ensures forall m :: m in Movers(held, window)
              <==> exists e :: e in held && IndexIn(window, e.at) == Some(m.idx) && e.post == m.post
  {
    InWindowMembers(held, window);
    SortPermutes(InWindow(held, window), LatestFirst);
    SameMembers(InWindow(held, window), Movers(held, window));
  }

  lemma MoverIsHeld(held: seq<Held>, window: seq<Candidate>, i: int)
    requires 0 <= i < |Movers(held, window)|
    ensures var m := Movers(held, window)[i];
            && 0 <= m.idx < |window| && window[m.idx].clear && Held(m.post, window[m.idx].at) in held
            && IndexIn(window, window[m.idx].at) == Some(m.idx)
  {
    var m := Movers(held, window)[i];
    assert m in Movers(held, window);
    MoversAreHeld(held, window);
    var e :| e in held && IndexIn(window, e.at) == Some(m.idx) && e.post == m.post;
    assert e == Held(m.post, window[m.idx].at);
  }

  lemma MoverIndices(held: seq<Held>, window: seq<Candidate>)
    ensures forall i :: 0 <= i < |Movers(held, window)| ==> 0 <= Movers(held, window)[i].idx
  {
    forall i | 0 <= i < |Movers(held, window)| ensures 0 <= Movers(held, window)[i].idx {
      MoverIsHeld(held, window, i);
    }
  }

  // ---------------------------------------------------------------------
  // Remove
  // ---------------------------------------------------------------------

  /** Drafting the child clears its time and drops its entries on every queue of the
      channel; a child that cannot be drafted keeps both, and only this entry goes. */
  function Drafted(c: State, p: PostId): State
    requires p in c.rows
  {
    Synced(c.(rows := c.rows[p := Row(Draft, None)],
              entries := map k | k in c.entries && k.post != p :: c.entries[k]), p)
  }

  function Removed(c: State, k: Key): State {
    var c1 := if k.post in c.rows && !Protected(c.rows[k.post].status) && CanDraft(c.rows[k.post].status)
              then Drafted(c, k.post) else c;
    Synced(c1.(entries := c1.entries - {k}), k.post)
  }

  // ---------------------------------------------------------------------
  // Reorder
  // ---------------------------------------------------------------------

  function Itself(t: int): int {
    t
  }

  /** The posts named by the ids that are in this queue and not protected, in order. */
  function Named(c: State, queue: QueueId, ids: seq<Key>): (r: seq<PostId>)
    ensures forall p :: p in r ==> Key(queue, p) in c.entries
  {
    if ids == [] then []
    else
      var n := |ids| - 1;
      var k := ids[n];
      Named(c, queue, ids[..n])
      + (if k.queue == queue && k in c.entries && !(k.post in c.rows && Protected(c.rows[k.post].status))
         then [k.post] else [])
  }

  /** Those of them that hold an instant, with that instant. */
  function Slotted(rows: map<PostId, Row>, posts: seq<PostId>): (r: seq<Held>)
    ensures forall m :: m in r ==> m.post in posts && m.post in rows && rows[m.post].at == Some(m.at)
  {
    if posts == [] then []
    else
      var n := |posts| - 1;
      assert posts == posts[..n] + [posts[n]];
      Slotted(rows, posts[..n])
      + (if posts[n] in rows && rows[posts[n]].at.Some?
         then [Held(posts[n], rows[posts[n]].at.value)] else [])
  }

  function Times(held: seq<Held>): (r: seq<int>)
    ensures |r| == |held|
    ensures forall i :: 0 <= i < |r| ==> r[i] == held[i].at
  {
    seq(|held|, i requires 0 <= i < |held| => held[i].at)
  }

  /** The instants dealt out to the posts in turn. */
  function Dealt(c: State, queue: QueueId, held: seq<Held>, times: seq<int>): (r: State)
    requires |times| == |held|
    ensures r.entries.Keys == c.entries.Keys && r.rows.Keys == c.rows.Keys
  {
    if held == [] then c
    else
      var n := |held| - 1;
      Written(Dealt(c, queue, held[..n], times[..n]), Key(queue, held[n].post), times[n])
  }

  /** Positions follow the requested order; an entry is written only when the position it
      was loaded with differs. */
  function Positioned(entries: map<Key, Entry>, loaded: map<Key, Entry>, queue: QueueId, posts: seq<PostId>)
    : (r: map<Key, Entry>)
    requires forall p :: p in posts ==> Key(queue, p) in entries && Key(queue, p) in loaded
    ensures r.Keys == entries.Keys
  {
    if posts == [] then entries
    else
      var n := |posts| - 1;
      var k := Key(queue, posts[n]);
      var prior := Positioned(entries, loaded, queue, posts[..n]);
      if loaded[k].position != n then prior[k := prior[k].(position := n)] else prior
  }

  function Reordered(c: State, queue: QueueId, ids: seq<Key>): State {
    var named := Named(c, queue, ids);
    var held := Slotted(c.rows, named);
    var c1 := Dealt(c, queue, held, Sort(Times(held), Itself));
    c1.(entries := Positioned(c1.entries, c.entries, queue, named))
  }
}
