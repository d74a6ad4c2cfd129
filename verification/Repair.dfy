/** The one-off repair of published posts dragged into the future
    (apps/calendar/services.py). */
module Repair {
  import opened Common
  import opened QueueState

  type ChildId = int
  type ChannelId = int
  type EntryId = int
  type WorkspaceId = int

  /** A platform post; at most one per post and channel. */
  datatype Child = Child(post: PostId, channel: ChannelId, status: Status, at: Option<int>, publishedAt: Option<int>)

  /** A queue entry, with the channel of its queue. */
  datatype Slotting = Slotting(post: PostId, channel: ChannelId, slotAt: Option<int>)

  datatype Tables = Tables(
    workspaceOf: map<PostId, WorkspaceId>,
    parents: map<PostId, Option<int>>,
    children: map<ChildId, Child>,
    entries: map<EntryId, Slotting>)

  /** The database's own constraints. */
  ghost predicate Constrained(t: Tables) {
    && (forall i :: i in t.children ==> t.children[i].post in t.parents)
    && (forall p :: p in t.parents ==> p in t.workspaceOf)
    && (forall i, j :: i in t.children && j in t.children && i != j ==>
          t.children[i].post != t.children[j].post || t.children[i].channel != t.children[j].channel)
  }

  /** Published, yet scheduled after it was published: the mark of the corruption. */
  predicate Corrupt(c: Child) {
    c.status.Published? && c.publishedAt.Some? && c.at.Some? && c.at.value > c.publishedAt.value
  }

  predicate InScope(t: Tables, c: Child, ws: Option<WorkspaceId>) {
    ws.None? || (c.post in t.workspaceOf && t.workspaceOf[c.post] == ws.value)
  }

  function Affected(t: Tables, ws: Option<WorkspaceId>): set<ChildId> {
    set i | i in t.children && Corrupt(t.children[i]) && InScope(t, t.children[i], ws)
  }

  function AffectedPosts(t: Tables, ws: Option<WorkspaceId>): set<PostId> {
    set i | i in Affected(t, ws) :: t.children[i].post
  }

  /** The stale entry of a corrupt child: same post, same channel, later than publication. */
  predicate StaleFor(e: Slotting, c: Child) {
    e.post == c.post && e.channel == c.channel && c.publishedAt.Some?
    && e.slotAt.Some? && e.slotAt.value > c.publishedAt.value
  }

  ghost predicate StaleForSome(t: Tables, ids: set<ChildId>, e: EntryId)
    requires e in t.entries
  {
    exists i :: i in ids && i in t.children && StaleFor(t.entries[e], t.children[i])
  }

  ghost function Stale(t: Tables, ids: set<ChildId>): set<EntryId> {
    set e | e in t.entries && StaleForSome(t, ids, e)
  }

  /** The earliest time among a post's children. */
  function Earliest(children: map<ChildId, Child>, p: PostId): (r: Option<int>)
    ensures r.None? <==> forall i :: i in children && children[i].post == p ==> children[i].at.None?
    ensures r.Some? ==> exists i :: i in children && children[i].post == p && children[i].at == r
    ensures r.Some? ==> forall i :: i in children && children[i].post == p && children[i].at.Some? ==>
                                      r.value <= children[i].at.value
  {
    var times := set i | i in children && children[i].post == p && children[i].at.Some? :: children[i].at.value;
    assert forall i :: i in children && children[i].post == p && children[i].at.Some? ==> children[i].at.value in times;
    if times == {} then None else Some(Least(times))
  }

  function Least(s: set<int>): (m: int)
    requires s != {}
    ensures m in s && forall x :: x in s ==> m <= x
  {
    LeastExists(s);
    var m :| m in s && forall x :: x in s ==> m <= x;
    m
  }

  lemma {:induction false} LeastExists(s: set<int>)
    requires s != {}
    ensures exists m :: m in s && forall x :: x in s ==> m <= x
  {
    var y := Member(s);
    if s != {y} {
      LeastExists(s - {y});
      var m :| m in s - {y} && forall x :: x in s - {y} ==> m <= x;
      var w := if m < y then m else y;
      forall x | x in s ensures w <= x {
        assert x == y || x in s - {y};
      }
      assert w in s;
    }
  }

  /** A scheduled child without a time of its own takes its parent's current time. */
  function Pinned(c: Child, parent: Option<int>): Child {
    if c.status.Scheduled? && c.at.None? && parent.Some? then c.(at := parent) else c
  }

  // ---------------------------------------------------------------------
  // What the repair does to the tables
  // ---------------------------------------------------------------------

  ghost predicate RepairedChildren(t: Tables, t': Tables, ids: set<ChildId>, posts: set<PostId>) {
    && t'.children.Keys == t.children.Keys
    && forall i :: i in t.children ==>
         var c := t.children[i];
         t'.children[i] == if i in ids then c.(at := c.publishedAt)
                           else if c.post in posts && c.post in t.parents then Pinned(c, t.parents[c.post])
                           else c
  }

  ghost predicate RepairedEntries(t: Tables, t': Tables, ids: set<ChildId>) {
    && t'.entries.Keys == t.entries.Keys
    && (forall e, i :: e in t.entries && i in ids && i in t.children && StaleFor(t.entries[e], t.children[i]) ==>
          t'.entries[e] == t.entries[e].(slotAt := t.children[i].publishedAt))
    && (forall e :: e in t.entries && e !in Stale(t, ids) ==> t'.entries[e] == t.entries[e])
  }

  ghost predicate Repaired(t: Tables, t': Tables, ws: Option<WorkspaceId>) {
    var ids, posts := Affected(t, ws), AffectedPosts(t, ws);
    && t'.workspaceOf == t.workspaceOf
    && RepairedChildren(t, t', ids, posts)
    && RepairedEntries(t, t', ids)
    && t'.parents.Keys == t.parents.Keys
    && forall p :: p in t.parents ==>
         t'.parents[p] == if p in posts then Earliest(t'.children, p) else t.parents[p]
  }

  /** What the repair reports. */
  datatype Summary = Summary(platformPosts: int, posts: int, queueEntries: int, applied: bool)

  class CalendarTables {
    const workspaceOf: map<PostId, WorkspaceId>
    var parents: map<PostId, Option<int>>
    var children: map<ChildId, Child>
    var entries: map<EntryId, Slotting>

    ghost function View(): Tables
      reads this
    {
      Tables(workspaceOf, parents, children, entries)
    }

    constructor (t: Tables)
      ensures View() == t
    {
      workspaceOf, parents, children, entries := t.workspaceOf, t.parents, t.children, t.entries;
    }

    method RepairFuturePublished(ws: Option<WorkspaceId>, apply: bool) returns (r: Summary)
      requires Constrained(View())
      modifies this
      ensures r.platformPosts == |Affected(old(View()), ws)| && r.posts == |AffectedPosts(old(View()), ws)|
      ensures r.queueEntries == |Stale(old(View()), Affected(old(View()), ws))|
      ensures r.applied == (apply && Affected(old(View()), ws) != {})
      ensures if r.applied then Repaired(old(View()), View(), ws) else View() == old(View())
    {
      ghost var t := View();
      var affected := Affected(Tables(workspaceOf, parents, children, entries), ws);
      var postIds := set i | i in affected :: children[i].post;
      var targets := map i | i in affected :: children[i];
      assert targets.Keys == affected;
      var counted := 0;
      if apply && affected != {} {
        counted := ApplyRepair(affected, postIds, targets);
      } else {
        counted := CountStale(targets, t);
      }
      r := Summary(|affected|, |postIds|, counted, apply && affected != {});
    }

    /** The writes, in the order that keeps pending posts from becoming due. */
    method ApplyRepair(affected: set<ChildId>, postIds: set<PostId>, targets: map<ChildId, Child>)
      returns (counted: int)
      requires Constrained(View())
      requires forall i :: i in affected ==> i in children && Corrupt(children[i])
      requires postIds == set i | i in affected :: children[i].post
      requires targets == map i | i in affected :: children[i]
      modifies this
      ensures RepairedChildren(old(View()), View(), affected, postIds)
      ensures RepairedEntries(old(View()), View(), affected) && counted == |Stale(old(View()), affected)|
      ensures parents == map p | p in old(parents) :: if p in postIds then Earliest(children, p) else old(parents)[p]
    {
      ghost var t := View();
      assert targets.Keys == affected;
      PinSiblings(postIds);
      SnapChildren(affected);
      ghost var snapped := children;
      assert RepairedChildren(t, View(), affected, postIds);
      counted := SnapEntries(targets, t);
      SyncParents(postIds);
      assert children == snapped;
    }

    method SnapChildren(affected: set<ChildId>)
      modifies this`children
      ensures children == map i | i in old(children) ::
                            if i in affected then old(children)[i].(at := old(children)[i].publishedAt)
                            else old(children)[i]
    {
      children := map i | i in children ::
        if i in affected then children[i].(at := children[i].publishedAt) else children[i];
    }

    method PinSiblings(postIds: set<PostId>)
      requires forall p :: p in postIds ==> p in parents
      modifies this`children
      ensures children == map i | i in old(children) ::
                            if old(children)[i].post in postIds
                            then Pinned(old(children)[i], parents[old(children)[i].post]) else old(children)[i]
    {
      ghost var before := children;
      var todo := postIds;
      while todo != {}
        invariant todo <= postIds
        invariant children == map i | i in before ::
                                if before[i].post in postIds - todo
                                then Pinned(before[i], parents[before[i].post]) else before[i]
        decreases todo
      {
        ghost var some := Member(todo);
        var p :| p in todo;
        if parents[p].Some? {
          children := map i | i in children ::
            if children[i].post == p then Pinned(children[i], parents[p]) else children[i];
        }
        todo := todo - {p};
      }
    }

    /** One update statement per corrupt child; the targets never overlap. */
    method SnapEntries(targets: map<ChildId, Child>, ghost t: Tables) returns (counted: int)
      requires entries == t.entries && Constrained(t)
      requires forall i :: i in targets ==> i in t.children && targets[i] == t.children[i] && targets[i].publishedAt.Some?
      modifies this`entries
      ensures RepairedEntries(t, View(), targets.Keys)
      ensures counted == |Stale(t, targets.Keys)|
    {
      var todo := targets.Keys;
      counted := 0;
      while todo != {}
        invariant todo <= targets.Keys
        invariant RepairedEntries(t, View(), targets.Keys - todo)
        invariant counted == |Stale(t, targets.Keys - todo)|
        decreases todo
      {
        ghost var some := Member(todo);
        var i :| i in todo;
        ghost var done, before := targets.Keys - todo, View();
        var stale := SnapStale(targets[i]);
        OneMoreTarget(t, before, View(), done, i);
        counted := counted + |stale|;
        todo := todo - {i};
        assert targets.Keys - todo == done + {i};
      }
      assert targets.Keys - {} == targets.Keys;
    }

    /** The update statement of one corrupt child, and the rows it hit. */
    method SnapStale(c: Child) returns (stale: set<EntryId>)
      modifies this`entries
      ensures stale == Own(old(entries), c)
      ensures entries == map e | e in old(entries) ::
                           if StaleFor(old(entries)[e], c) then old(entries)[e].(slotAt := c.publishedAt)
                           else old(entries)[e]
    {
      stale := Own(entries, c);
      entries := map e | e in entries ::
        if StaleFor(entries[e], c) then entries[e].(slotAt := c.publishedAt) else entries[e];
    }

    method CountStale(targets: map<ChildId, Child>, ghost t: Tables) returns (counted: int)
      requires entries == t.entries && Constrained(t)
      requires forall i :: i in targets ==> i in t.children && targets[i] == t.children[i]
      ensures counted == |Stale(t, targets.Keys)|
    {
      var todo := targets.Keys;
      counted := 0;
      while todo != {}
        invariant todo <= targets.Keys
        invariant counted == |Stale(t, targets.Keys - todo)|
        decreases todo
      {
        ghost var some := Member(todo);
        var i :| i in todo;
        ghost var done := targets.Keys - todo;
        var stale := Own(entries, targets[i]);
        StaleSplits(t, done, i);
        counted := counted + |stale|;
        todo := todo - {i};
        assert targets.Keys - todo == done + {i};
      }
      assert targets.Keys - {} == targets.Keys;
    }

    method SyncParents(postIds: set<PostId>)
      requires forall p :: p in postIds ==> p in parents
      modifies this`parents
      ensures parents == map p | p in old(parents) :: if p in postIds then Earliest(children, p) else old(parents)[p]
    {
      ghost var before := parents;
      var todo := postIds;
      while todo != {}
        invariant todo <= postIds
        invariant parents == map p | p in before :: if p in postIds - todo then Earliest(children, p) else before[p]
        decreases todo
      {
        ghost var some := Member(todo);
        var p :| p in todo;
        parents := parents[p := Earliest(children, p)];
        todo := todo - {p};
      }
    }
  }

  /** The entries that are stale for one child. */
  function Own(entries: map<EntryId, Slotting>, c: Child): set<EntryId> {
    set e | e in entries && StaleFor(entries[e], c)
  }

  /** An entry is stale for at most one child. */
  lemma StaleForOne(t: Tables, done: set<ChildId>, i: ChildId, e: EntryId)
    requires Constrained(t) && i in t.children && i !in done && e in t.entries
    requires StaleFor(t.entries[e], t.children[i])
    ensures !StaleForSome(t, done, e)
  {
    forall j | j in done && j in t.children ensures !StaleFor(t.entries[e], t.children[j]) {
      assert i != j;
    }
  }

  /** The stale entries of one more child are new ones. */
  lemma StaleSplits(t: Tables, done: set<ChildId>, i: ChildId)
    requires Constrained(t) && i in t.children && i !in done
    ensures |Stale(t, done + {i})| == |Stale(t, done)| + |Own(t.entries, t.children[i])|
  {
    var own := Own(t.entries, t.children[i]);
    forall e | e in t.entries
      ensures e in Stale(t, done + {i}) <==> e in Stale(t, done) || e in own
      ensures e in own ==> e !in Stale(t, done)
    {
      if e in own {
        assert i in done + {i};
        StaleForOne(t, done, i, e);
      }
      if e in Stale(t, done) {
        var j :| j in done && j in t.children && StaleFor(t.entries[e], t.children[j]);
        assert j in done + {i};
      }
    }
    assert Stale(t, done + {i}) == Stale(t, done) + own;
    assert Stale(t, done) !! own;
  }

  /** Snapping other children's entries has not touched this child's. */
  lemma UntouchedSoFar(t: Tables, now: Tables, done: set<ChildId>, i: ChildId, e: EntryId)
    requires Constrained(t) && i in t.children && i !in done && RepairedEntries(t, now, done) && e in t.entries
    ensures StaleFor(now.entries[e], t.children[i]) <==> StaleFor(t.entries[e], t.children[i])
    ensures StaleFor(t.entries[e], t.children[i]) ==> now.entries[e] == t.entries[e]
  {
    if StaleFor(t.entries[e], t.children[i]) {
      StaleForOne(t, done, i, e);
    } else if StaleForSome(t, done, e) {
      var j :| j in done && j in t.children && StaleFor(t.entries[e], t.children[j]);
      assert now.entries[e] == t.entries[e].(slotAt := t.children[j].publishedAt);
      assert i != j;
    }
  }

  lemma OneMoreTarget(t: Tables, before: Tables, after: Tables, done: set<ChildId>, i: ChildId)
    requires Constrained(t) && i in t.children && i !in done && RepairedEntries(t, before, done)
    requires after.entries == map e | e in before.entries ::
               if StaleFor(before.entries[e], t.children[i])
               then before.entries[e].(slotAt := t.children[i].publishedAt) else before.entries[e]
    ensures RepairedEntries(t, after, done + {i})
    ensures |Stale(t, done + {i})| == |Stale(t, done)| + |Own(before.entries, t.children[i])|
  {
    StaleSplits(t, done, i);
    forall e | e in t.entries
      ensures StaleFor(before.entries[e], t.children[i]) <==> StaleFor(t.entries[e], t.children[i])
      ensures StaleFor(t.entries[e], t.children[i]) ==> before.entries[e] == t.entries[e]
    {
      UntouchedSoFar(t, before, done, i, e);
    }
    assert Own(before.entries, t.children[i]) == Own(t.entries, t.children[i]);
    forall e, j | e in t.entries && j in done + {i} && j in t.children && StaleFor(t.entries[e], t.children[j])
      ensures after.entries[e] == t.entries[e].(slotAt := t.children[j].publishedAt)
    {
      if j != i && StaleFor(t.entries[e], t.children[i]) {
        StaleForOne(t, done, i, e);
      }
    }
    forall e | e in t.entries && e !in Stale(t, done + {i}) ensures after.entries[e] == t.entries[e] {
      assert i in done + {i};
      assert !StaleForSome(t, done + {i}, e);
      assert !StaleForSome(t, done, e);
    }
  }

  // ---------------------------------------------------------------------
  // The guarantees
  // ---------------------------------------------------------------------

  ghost predicate InSync(t: Tables) {
    forall p :: p in t.parents ==> t.parents[p] == Earliest(t.children, p)
  }

  /** When the publisher considers a child due: its own time, else its parent's. */
  function EffectiveAt(t: Tables, i: ChildId): Option<int>
    requires i in t.children && t.children[i].post in t.parents
  {
    if t.children[i].at.Some? then t.children[i].at else t.parents[t.children[i].post]
  }

  /** Published, yet set for later than it was published. */
  ghost predicate LateChild(t: Tables, ws: Option<WorkspaceId>, i: ChildId) {
    && i in t.children
    && (ws.None? || (t.children[i].post in t.workspaceOf && t.workspaceOf[t.children[i].post] == ws.value))
    && match t.children[i]
       case Child(_, _, Published, Some(at), Some(publishedAt)) => at > publishedAt
       case _ => false
  }

  ghost predicate LatePost(t: Tables, ws: Option<WorkspaceId>, p: PostId) {
    exists i :: LateChild(t, ws, i) && t.children[i].post == p
  }

  /** The entry of a late child's post on its channel shows a time past publication as well. */
  ghost predicate LateEntry(t: Tables, ws: Option<WorkspaceId>, e: EntryId, i: ChildId) {
    && e in t.entries && LateChild(t, ws, i)
    && t.entries[e].post == t.children[i].post && t.entries[e].channel == t.children[i].channel
    && t.entries[e].slotAt.Some? && t.entries[e].slotAt.value > t.children[i].publishedAt.value
  }

  lemma AffectedIsLate(t: Tables, ws: Option<WorkspaceId>, i: ChildId)
    ensures i in Affected(t, ws) <==> LateChild(t, ws, i)
  {
  }

  lemma AffectedIsLatePost(t: Tables, ws: Option<WorkspaceId>, p: PostId)
    ensures p in AffectedPosts(t, ws) <==> LatePost(t, ws, p)
  {
    if p in AffectedPosts(t, ws) {
      var i :| i in Affected(t, ws) && t.children[i].post == p;
      AffectedIsLate(t, ws, i);
    }
    if LatePost(t, ws, p) {
      var i :| LateChild(t, ws, i) && t.children[i].post == p;
      AffectedIsLate(t, ws, i);
    }
  }

  /** What a child's time is afterwards: a late one's is that of its publication, a scheduled
      one without a time, beside a late one, has its parent's, and nothing else changes. */
  lemma RepairIsExact(t: Tables, t': Tables, ws: Option<WorkspaceId>, i: ChildId)
    requires Repaired(t, t', ws) && i in t.children && t.children[i].post in t.parents
    ensures i in t'.children
    ensures var c := t.children[i];
            t'.children[i] == c.(at := if LateChild(t, ws, i) then c.publishedAt
                                       else if c.status.Scheduled? && c.at.None? && LatePost(t, ws, c.post)
                                       then t.parents[c.post] else c.at)
  {
    AffectedIsLate(t, ws, i);
    AffectedIsLatePost(t, ws, t.children[i].post);
  }

  /** And what an entry shows. */
  lemma RepairedEntriesAreExact(t: Tables, t': Tables, ws: Option<WorkspaceId>, e: EntryId)
    requires Repaired(t, t', ws) && e in t.entries
    ensures e in t'.entries
    ensures forall i :: LateEntry(t, ws, e, i) ==> t'.entries[e] == t.entries[e].(slotAt := t.children[i].publishedAt)
    ensures (forall i :: !LateEntry(t, ws, e, i)) ==> t'.entries[e] == t.entries[e]
  {
    forall i | LateEntry(t, ws, e, i) ensures i in Affected(t, ws) && StaleFor(t.entries[e], t.children[i]) {
      AffectedIsLate(t, ws, i);
    }
    if e in Stale(t, Affected(t, ws)) {
      var i :| i in Affected(t, ws) && i in t.children && StaleFor(t.entries[e], t.children[i]);
      assert LateEntry(t, ws, e, i);
    }
  }

  /** So no published child in scope is late any more, nor is the entry of one that was;
      and posts without a late child keep all their rows. */
  lemma RepairCures(t: Tables, t': Tables, ws: Option<WorkspaceId>)
    requires Repaired(t, t', ws)
    ensures forall i :: !LateChild(t', ws, i)
    ensures forall e, i :: LateChild(t, ws, i) && e in t'.entries && t'.entries[e].post == t.children[i].post
                           && t'.entries[e].channel == t.children[i].channel && t'.entries[e].slotAt.Some? ==>
              t'.entries[e].slotAt.value <= t.children[i].publishedAt.value
    ensures forall i :: i in t.children && !LatePost(t, ws, t.children[i].post) ==>
              i in t'.children && t'.children[i] == t.children[i]
    ensures forall p :: p in t.parents && !LatePost(t, ws, p) ==> p in t'.parents && t'.parents[p] == t.parents[p]
  {
    forall i ensures !LateChild(t', ws, i) {
      NoLongerLate(t, t', ws, i);
    }
    forall i | i in t.children && !LatePost(t, ws, t.children[i].post) ensures t'.children[i] == t.children[i] {
      AffectedIsLate(t, ws, i);
      AffectedIsLatePost(t, ws, t.children[i].post);
    }
    forall p | p in t.parents && !LatePost(t, ws, p) ensures p in t'.parents.Keys && t'.parents[p] == t.parents[p] {
      AffectedIsLatePost(t, ws, p);
    }
    forall e, i | LateChild(t, ws, i) && e in t'.entries && t'.entries[e].post == t.children[i].post
                  && t'.entries[e].channel == t.children[i].channel && t'.entries[e].slotAt.Some?
      ensures t'.entries[e].slotAt.value <= t.children[i].publishedAt.value
    {
      EntryNoLongerLate(t, t', ws, e, i);
    }
  }

  lemma EntryNoLongerLate(t: Tables, t': Tables, ws: Option<WorkspaceId>, e: EntryId, i: ChildId)
    requires Repaired(t, t', ws) && LateChild(t, ws, i)
    requires e in t'.entries && t'.entries[e].post == t.children[i].post && t'.entries[e].channel == t.children[i].channel
    ensures t'.entries[e].slotAt.Some? ==> t'.entries[e].slotAt.value <= t.children[i].publishedAt.value
  {
    assert e in t.entries;
    RepairedEntriesAreExact(t, t', ws, e);
    EntriesStayPut(t, t', ws, e);
    if !LateEntry(t, ws, e, i) && t'.entries[e] != t.entries[e] {
      var j :| LateEntry(t, ws, e, j);
      assert t'.entries[e].slotAt == t.children[j].publishedAt;
    }
  }

  lemma NoLongerLate(t: Tables, t': Tables, ws: Option<WorkspaceId>, i: ChildId)
    requires Repaired(t, t', ws)
    ensures !LateChild(t', ws, i)
  {
    AffectedIsLate(t, ws, i);
    assert i in t'.children ==> i in t.children && t'.children[i].post == t.children[i].post;
  }

  /** An entry keeps its post and its channel. */
  lemma EntriesStayPut(t: Tables, t': Tables, ws: Option<WorkspaceId>, e: EntryId)
    requires Repaired(t, t', ws) && e in t.entries
    ensures e in t'.entries && t'.entries[e].post == t.entries[e].post && t'.entries[e].channel == t.entries[e].channel
    ensures t'.entries[e] == t.entries[e] || exists i :: LateEntry(t, ws, e, i)
  {
    RepairedEntriesAreExact(t, t', ws, e);
    if i :| LateEntry(t, ws, e, i) {
      assert t'.entries[e] == t.entries[e].(slotAt := t.children[i].publishedAt);
    }
  }

  /** No child changes its post or its channel. */
  lemma ChildrenStayPut(t: Tables, t': Tables, ids: set<ChildId>, posts: set<PostId>)
    requires RepairedChildren(t, t', ids, posts)
    ensures forall i :: i in t'.children <==> i in t.children
    ensures forall i :: i in t.children ==>
              t'.children[i].post == t.children[i].post && t'.children[i].channel == t.children[i].channel
  {
  }

  lemma ConstraintsCarryOver(t: Tables, t': Tables)
    requires Constrained(t) && t'.workspaceOf == t.workspaceOf && t'.parents.Keys == t.parents.Keys
    requires forall i :: i in t'.children <==> i in t.children
    requires forall i :: i in t.children ==>
               t'.children[i].post == t.children[i].post && t'.children[i].channel == t.children[i].channel
    ensures Constrained(t')
  {
  }

  lemma RepairKeepsConstraints(t: Tables, t': Tables, ws: Option<WorkspaceId>)
    requires Constrained(t) && Repaired(t, t', ws)
    ensures Constrained(t')
  {
    ChildrenStayPut(t, t', Affected(t, ws), AffectedPosts(t, ws));
    ConstraintsCarryOver(t, t');
  }

  lemma SomebodyIsLate(t: Tables, ws: Option<WorkspaceId>)
    requires Affected(t, ws) != {}
    ensures exists i :: LateChild(t, ws, i)
  {
    var i := Member(Affected(t, ws));
    AffectedIsLate(t, ws, i);
  }

  lemma RepairTwice(t: Tables, t': Tables, t'': Tables, ws: Option<WorkspaceId>)
    requires Constrained(t) && Repaired(t, t', ws) && Repaired(t', t'', ws)
    ensures t'' == t'
  {
    RepairCures(t, t', ws);
    if Affected(t', ws) != {} {
      SomebodyIsLate(t', ws);
    }
    assert AffectedPosts(t', ws) == {};
    SameTables(t', t'');
  }

  /** A repair that affects nobody is no change. */
  lemma SameTables(t: Tables, t': Tables)
    requires RepairedChildren(t, t', {}, {}) && RepairedEntries(t, t', {})
    requires t'.workspaceOf == t.workspaceOf && t'.parents.Keys == t.parents.Keys
    requires forall p :: p in t.parents ==> t'.parents[p] == t.parents[p]
    ensures t' == t
  {
    forall e | e in t.entries ensures t'.entries[e] == t.entries[e] {
      assert !StaleForSome(t, {}, e);
    }
    forall i | i in t.children ensures t'.children[i] == t.children[i] {
    }
    forall p | p in t.parents ensures p in t'.parents && t'.parents[p] == t.parents[p] {
    }
    assert t'.children == t.children && t'.entries == t.entries && t'.parents == t.parents;
  }

  /** Parents that were the minimum of their children still are; those of affected posts are
      so in any case. */
  lemma RepairSyncs(t: Tables, t': Tables, ws: Option<WorkspaceId>)
    requires Constrained(t) && Repaired(t, t', ws)
    ensures forall p :: p in AffectedPosts(t, ws) ==> t'.parents[p] == Earliest(t'.children, p)
    ensures InSync(t) ==> InSync(t')
  {
    forall p | InSync(t) && p in t.parents && p !in AffectedPosts(t, ws)
      ensures t'.parents[p] == Earliest(t'.children, p)
    {
      ChildrenStayPut(t, t', Affected(t, ws), AffectedPosts(t, ws));
      SameEarliest(t.children, t'.children, p);
    }
  }

  lemma SameEarliest(children: map<ChildId, Child>, children': map<ChildId, Child>, p: PostId)
    requires forall i :: i in children' <==> i in children
    requires forall i :: i in children ==> children'[i].post == children[i].post
    requires forall i :: i in children && children[i].post == p ==> children'[i] == children[i]
    ensures Earliest(children', p) == Earliest(children, p)
  {
    assert (set i | i in children && children[i].post == p && children[i].at.Some? :: children[i].at.value)
        == (set i | i in children' && children'[i].post == p && children'[i].at.Some? :: children'[i].at.value);
  }

  /** No scheduled child's effective time moves, exactly when each one that relies on an
      affected parent has a parent time to be pinned to. */
  lemma PendingTimesKeptIff(t: Tables, t': Tables, ws: Option<WorkspaceId>)
    requires Constrained(t) && Constrained(t') && Repaired(t, t', ws)
    ensures (forall i :: i in t.children && t.children[i].status.Scheduled? ==>
               i in t'.children && t'.children[i].post == t.children[i].post && t.children[i].post in t'.parents
               && EffectiveAt(t', i) == EffectiveAt(t, i))
            <==> forall i :: i in t.children && t.children[i].status.Scheduled? && t.children[i].at.None?
                             && t.children[i].post in AffectedPosts(t, ws) ==>
                   t.parents[t.children[i].post].Some?
  {
    forall i | i in t.children && t.children[i].status.Scheduled?
      ensures EffectiveAt(t', i) == EffectiveAt(t, i)
              <==> (t.children[i].at.None? && t.children[i].post in AffectedPosts(t, ws) ==>
                      t.parents[t.children[i].post].Some?)
    {
      assert i !in Affected(t, ws);
      var p := t.children[i].post;
      if p in AffectedPosts(t, ws) {
        var j :| j in Affected(t, ws) && t.children[j].post == p;
        assert t'.children[j].at.Some? && t'.children[j].post == p;
        assert t'.parents[p].Some?;
      }
    }
  }

  /** In particular none moves when the parents were in step beforehand. */
  lemma PendingTimesKept(t: Tables, t': Tables, ws: Option<WorkspaceId>, i: ChildId)
    requires Constrained(t) && InSync(t) && Repaired(t, t', ws)
    requires i in t.children && t.children[i].status.Scheduled?
    ensures i in t'.children && t'.children[i].post in t'.parents && EffectiveAt(t', i) == EffectiveAt(t, i)
  {
    RepairKeepsConstraints(t, t', ws);
    forall k | k in t.children && t.children[k].post in AffectedPosts(t, ws)
      ensures t.parents[t.children[k].post].Some?
    {
      var p := t.children[k].post;
      var j :| j in Affected(t, ws) && t.children[j].post == p;
      assert Earliest(t.children, p).Some?;
    }
    PendingTimesKeptIff(t, t', ws);
  }
}
