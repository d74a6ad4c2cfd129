/** Reminders and escalation of stalled approvals (apps/approvals/tasks.py, with the resets
    in apps/approvals/services.py). */
module Reminders {
  import opened Common

  type PostId = int

  const MAX_REMINDERS := 2
  const HOUR := 3600

  datatype Stage = PendingReview | PendingClient

  function Threshold(stage: Stage): (t: int)
    ensures t > 0
  {
    match stage
    case PendingReview => 24 * HOUR
    case PendingClient => 48 * HOUR
  }

  datatype Key = Key(post: PostId, stage: Stage)

  datatype Reminder = Reminder(count: nat, last: Option<int>, escalated: bool)

  const FRESH := Reminder(0, None, false)

  datatype Notice = Reminded(at: int) | Escalated(at: int)

  /** What one cycle sends for a stalled post, and what it leaves behind. */
  function Nudge(r: Reminder, now: int, threshold: int): (Reminder, Option<Notice>) {
    if r.count >= MAX_REMINDERS then
      if r.escalated then (r, None) else (r.(escalated := true), Some(Escalated(now)))
    else if r.last.Some? && now < r.last.value + threshold then (r, None)
    else (Reminder(r.count + 1, Some(now), r.escalated), Some(Reminded(now)))
  }

  /** The reminder table. */
  class ReminderTable {
    var rows: map<Key, Reminder>

    ghost function RowOf(k: Key): Reminder
      reads this
    {
      if k in rows then rows[k] else FRESH
    }

    constructor ()
      ensures rows == map[]
    {
      rows := map[];
    }

    /** Creates the row if the stage has none yet, and sends what is due. */
    method Visit(k: Key, now: int, threshold: int) returns (notice: Option<Notice>)
      modifies this
      ensures rows == old(rows)[k := Nudge(old(RowOf(k)), now, threshold).0]
      ensures notice == Nudge(old(RowOf(k)), now, threshold).1
    {
      notice := None;
      var r := if k in rows then rows[k] else FRESH;
      rows := rows[k := r];
      if r.count >= MAX_REMINDERS {
        if !r.escalated {
          notice := Some(Escalated(now));
          rows := rows[k := r.(escalated := true)];
        }
      } else if r.last.None? || now >= r.last.value + threshold {
        notice := Some(Reminded(now));
        rows := rows[k := Reminder(r.count + 1, Some(now), r.escalated)];
      }
      assert rows == old(rows)[k := rows[k]];
    }

    /** `stalled` is the query's answer: each post in the stage that nothing has touched
        for the threshold, once. */
    method ProcessStage(stage: Stage, stalled: seq<PostId>, now: int) returns (sent: map<PostId, Notice>)
      requires Distinct(stalled)
      modifies this
      ensures forall k :: k in rows <==> k in old(rows) || (k.stage == stage && k.post in stalled)
      ensures forall k :: k in old(rows) && !(k.stage == stage && k.post in stalled) ==> rows[k] == old(rows)[k]
      ensures forall p :: p in stalled ==>
                rows[Key(p, stage)] == Nudge(old(RowOf(Key(p, stage))), now, Threshold(stage)).0
      ensures forall p :: p in sent <==> p in stalled && Nudge(old(RowOf(Key(p, stage))), now, Threshold(stage)).1.Some?
      ensures forall p :: p in sent ==> Nudge(old(RowOf(Key(p, stage))), now, Threshold(stage)).1 == Some(sent[p])
    {
      sent := map[];
      var threshold := Threshold(stage);
      ghost var before := rows;
      for n := 0 to |stalled|
        invariant forall k :: k in rows <==> k in before || (k.stage == stage && k.post in stalled[..n])
        invariant forall k :: k in before && !(k.stage == stage && k.post in stalled[..n]) ==> rows[k] == before[k]
        invariant forall p :: p in stalled[..n] ==>
                    rows[Key(p, stage)] == Nudge(old(RowOf(Key(p, stage))), now, threshold).0
        invariant forall p :: p in sent <==> p in stalled[..n] && Nudge(old(RowOf(Key(p, stage))), now, threshold).1.Some?
        invariant forall p :: p in sent ==> Nudge(old(RowOf(Key(p, stage))), now, threshold).1 == Some(sent[p])
      {
        var p := stalled[n];
        assert p !in stalled[..n] && stalled[..n + 1] == stalled[..n] + [p];
        assert RowOf(Key(p, stage)) == old(RowOf(Key(p, stage)));
        var notice := Visit(Key(p, stage), now, threshold);
        if notice.Some? {
          sent := sent[p := notice.value];
        }
      }
      assert stalled[..|stalled|] == stalled;
    }

    /** Submitting, resubmitting or advancing a post starts its stage afresh. */
    method Reset(k: Key)
      modifies this
      ensures rows == old(rows)[k := FRESH]
    {
      rows := rows[k := FRESH];
    }
  }

  // ---------------------------------------------------------------------
  // Whole runs, seen from one post and stage
  // ---------------------------------------------------------------------

  /** A cycle that finds the post stalled, or a reset. */
  datatype Event = Cycle(now: int) | Resubmitted

  function RowAfter(events: seq<Event>, threshold: int): Reminder {
    if events == [] then FRESH
    else
      var n := |events| - 1;
      match events[n]
      case Resubmitted => FRESH
      case Cycle(now) => Nudge(RowAfter(events[..n], threshold), now, threshold).0
  }

  /** Everything sent since the last reset. */
  function SentSince(events: seq<Event>, threshold: int): seq<Notice> {
    if events == [] then []
    else
      var n := |events| - 1;
      match events[n]
      case Resubmitted => []
      case Cycle(now) =>
        var notice := Nudge(RowAfter(events[..n], threshold), now, threshold).1;
        SentSince(events[..n], threshold) + if notice.Some? then [notice.value] else []
  }

  /** The cycles since the last reset. */
  function CyclesSince(events: seq<Event>): seq<int> {
    if events == [] then []
    else
      var n := |events| - 1;
      match events[n]
      case Resubmitted => []
      case Cycle(now) => CyclesSince(events[..n]) + [now]
  }

  /** The first cycle from position `i` on that is at or past `due`. */
  function FirstDue(cycles: seq<int>, i: nat, due: int): (k: nat)
    requires i <= |cycles|
    ensures i <= k <= |cycles|
    ensures forall j :: i <= j < k ==> cycles[j] < due
    ensures k < |cycles| ==> cycles[k] >= due
    decreases |cycles| - i
  {
    if i == |cycles| || cycles[i] >= due then i else FirstDue(cycles, i + 1, due)
  }

  /** The plan in plain terms: remind at the first cycle, remind again at the first cycle a
      threshold later, escalate at the very next cycle, and then keep silent. */
  function Planned(cycles: seq<int>, threshold: int): seq<Notice> {
    if cycles == [] then []
    else
      var second := FirstDue(cycles, 1, cycles[0] + threshold);
      [Reminded(cycles[0])]
      + (if second < |cycles| then [Reminded(cycles[second])] else [])
      + (if second + 1 < |cycles| then [Escalated(cycles[second + 1])] else [])
  }

  /** The row that goes with the notices sent so far. */
  function RowFor(sent: seq<Notice>): Reminder
    requires |sent| <= 3
  {
    Reminder(if |sent| < 2 then |sent| else 2,
             if |sent| == 0 then None else if |sent| == 1 then Some(sent[0].at) else Some(sent[1].at),
             |sent| == 3)
  }

  lemma {:induction false} FirstDueGrows(cycles: seq<int>, now: int, i: nat, due: int)
    requires i <= |cycles|
    ensures FirstDue(cycles + [now], i, due)
         == if FirstDue(cycles, i, due) < |cycles| || now >= due then FirstDue(cycles, i, due) else |cycles| + 1
    decreases |cycles| - i
  {
    var more := cycles + [now];
    if i < |cycles| && cycles[i] < due {
      FirstDueGrows(cycles, now, i + 1, due);
    } else if i == |cycles| {
      assert more[i] == now;
    }
  }

  /** One more cycle adds to the plan what the stored row makes the code send. */
  lemma PlanGrows(cycles: seq<int>, now: int, threshold: int)
    requires threshold > 0
    ensures var sent := Planned(cycles, threshold);
            var next := Nudge(RowFor(sent), now, threshold);
            && Planned(cycles + [now], threshold) == sent + (if next.1.Some? then [next.1.value] else [])
            && next.0 == RowFor(Planned(cycles + [now], threshold))
  {
    var more, sent := cycles + [now], Planned(cycles, threshold);
    if cycles != [] {
      var due := cycles[0] + threshold;
      var second := FirstDue(cycles, 1, due);
      FirstDueGrows(cycles, now, 1, due);
      assert more[0] == cycles[0];
      if second + 1 < |cycles| {
        assert more[second] == cycles[second] && more[second + 1] == cycles[second + 1];
        assert Planned(more, threshold) == sent && |sent| == 3;
      } else if second < |cycles| {
        assert more[second] == cycles[second] && more[second + 1] == now;
        assert Planned(more, threshold) == sent + [Escalated(now)];
      } else {
        assert sent == [Reminded(cycles[0])];
        assert now >= due ==> more[second] == now;
      }
    } else {
      assert FirstDue(more, 1, now + threshold) == 1;
    }
  }

  /** For every run: what is sent since the last reset is the plan, and the stored row
      remembers exactly it. */
  lemma {:induction false} RunFollowsPlan(events: seq<Event>, threshold: int)
    requires threshold > 0
    ensures SentSince(events, threshold) == Planned(CyclesSince(events), threshold)
    ensures RowAfter(events, threshold) == RowFor(SentSince(events, threshold))
  {
    if events != [] {
      var n := |events| - 1;
      RunFollowsPlan(events[..n], threshold);
      if events[n].Cycle? {
        PlanGrows(CyclesSince(events[..n]), events[n].now, threshold);
      }
    }
  }

  /** Hence at most two reminders, a threshold apart, and at most one escalation, after both. */
  lemma RemindersAreBounded(events: seq<Event>, threshold: int)
    requires threshold > 0
    ensures var sent := SentSince(events, threshold);
            && |sent| <= 3
            && (|sent| >= 1 ==> sent[0].Reminded?)
            && (|sent| >= 2 ==> sent[1].Reminded? && sent[1].at >= sent[0].at + threshold)
            && (|sent| == 3 ==> sent[2].Escalated?)
  {
    RunFollowsPlan(events, threshold);
  }

  /** The escalation keeps no distance of its own from the second reminder: it comes with the
      very next cycle. */
  lemma EscalationIsPrompt(cycles: seq<int>, now: int, threshold: int)
    requires threshold > 0 && cycles != []
    requires FirstDue(cycles, 1, cycles[0] + threshold) == |cycles| - 1
    ensures var sent := Planned(cycles + [now], threshold);
            |sent| == 3 && sent[1] == Reminded(cycles[|cycles| - 1]) && sent[2] == Escalated(now)
  {
    FirstDueGrows(cycles, now, 1, cycles[0] + threshold);
  }

  /** With the thresholds that the job uses, a day in review and two at the client. */
  lemma StageFollowsPlan(events: seq<Event>, stage: Stage)
    ensures var wait := match stage case PendingReview => 86400 case PendingClient => 172800;
            && SentSince(events, Threshold(stage)) == Planned(CyclesSince(events), wait)
            && (|SentSince(events, Threshold(stage))| >= 2 ==>
                  SentSince(events, Threshold(stage))[1].at - SentSince(events, Threshold(stage))[0].at >= wait)
  {
    RunFollowsPlan(events, Threshold(stage));
    RemindersAreBounded(events, Threshold(stage));
  }
}
