/** The decay schedule of post metrics (apps/analytics/tasks.py). Times are seconds. */
module Cadence {
  import opened Common

  const HOUR := 3600
  const DAY := 86400

  // The most captures one post can have. Hourly, six-hourly, daily and weekly intervals fit
  // 24 + 24 + 23 + 9 times into their bands, but the first capture of a band waits for that
  // band's own interval, which costs one of the last nine.
  const MAX_CAPTURES := 79

  /** Sync interval for a post of the given age; none past the horizon. */
  function SyncInterval(age: int): Option<int> {
    if age < DAY then Some(HOUR)
    else if age < 7 * DAY then Some(6 * HOUR)
    else if age < 30 * DAY then Some(DAY)
    else if age < 90 * DAY then Some(7 * DAY)
    else None
  }

  datatype Band = Band(maxAge: Option<int>, interval: Option<int>)

  const SCHEDULE := [
    Band(Some(DAY), Some(HOUR)), Band(Some(7 * DAY), Some(6 * HOUR)), Band(Some(30 * DAY), Some(DAY)),
    Band(Some(90 * DAY), Some(7 * DAY)), Band(None, None)]

  /** The table lookup: the first band that the age falls under. */
  method PostSyncInterval(age: int) returns (interval: Option<int>)
    ensures interval == SyncInterval(age)
  {
    var i := 0;
    while SCHEDULE[i].maxAge.Some? && age >= SCHEDULE[i].maxAge.value
      invariant 0 <= i < |SCHEDULE|
      invariant i > 0 ==> SCHEDULE[i - 1].maxAge.Some? && age >= SCHEDULE[i - 1].maxAge.value
      decreases |SCHEDULE| - i
    {
      i := i + 1;
    }
    assert i == 0 || i == 1 || i == 2 || i == 3 || i == 4;
    return SCHEDULE[i].interval;
  }

  /** Whether a post is due, given when it last had a cadence-counted row. */
  predicate Due(published: Option<int>, last: Option<int>, now: int) {
    published.Some? && SyncInterval(now - published.value).Some?
    && (last.None? || now - last.value >= SyncInterval(now - published.value).value)
  }

  /** One pass of the cron job over one account's published posts. */
  class SnapshotLog {
    var last: map<int, int>

    constructor ()
      ensures last == map[]
    {
      last := map[];
    }

    function LastOf(post: int): Option<int>
      reads this
    {
      if post in last then Some(last[post]) else None
    }

    /** `published` are the selected posts; `answered` those whose fetch writes a row. */
    method SyncAll(published: map<int, int>, answered: set<int>, now: int, capDays: nat)
      modifies this
      ensures forall p :: LastOf(p) ==
                if p in published && Step(published[p], old(LastOf(p)), Tick(now, p in answered), capDays)
                then Some(now) else old(LastOf(p))
    {
      if capDays == 0 {
        return;
      }
      var cutoff := now - capDays * DAY;
      ghost var before := last;
      var todo := set p | p in published && published[p] >= cutoff;
      ghost var selected := todo;
      while todo != {}
        invariant todo <= selected
        invariant forall p :: p in last <==>
                    (p in before || (p in selected && p !in todo && Due(Some(published[p]), None, now) && p in answered))
        invariant forall p :: p in last && (p !in selected || p in todo) ==> p in before && last[p] == before[p]
        invariant forall p :: p in selected && p !in todo ==>
                    LastOf(p) == var was := if p in before then Some(before[p]) else None;
                                 if Due(Some(published[p]), was, now) && p in answered then Some(now) else was
        decreases todo
      {
        ghost var some := Member(todo);
        var p :| p in todo;
        if Due(Some(published[p]), LastOf(p), now) && p in answered {
          last := last[p := now];
        }
        todo := todo - {p};
      }
    }
  }

  /** A pass of the hourly job; `wrote` says whether a fetch at this pass writes a row. */
  datatype Tick = Tick(now: int, wrote: bool)

  predicate Step(published: int, last: Option<int>, t: Tick, capDays: nat) {
    capDays > 0 && published >= t.now - capDays * DAY && Due(Some(published), last, t.now) && t.wrote
  }

  /** The times at which one post is captured over a run of the job. */
  function Captures(published: int, last: Option<int>, ticks: seq<Tick>, capDays: nat): seq<int>
    decreases |ticks|
  {
    if ticks == [] then []
    else if Step(published, last, ticks[0], capDays) then
      [ticks[0].now] + Captures(published, Some(ticks[0].now), ticks[1..], capDays)
    else Captures(published, last, ticks[1..], capDays)
  }

  /** How many captures, less one, are possible up to an age: one an hour until 23h, then from
      29h on one every six hours, from 191h on one a day, from 887h on one a week. */
  function Rank(age: int): int {
    if age < 29 * HOUR then AtMost(age / HOUR, 23)
    else if age < 191 * HOUR then AtMost(24 + (age - 29 * HOUR) / (6 * HOUR), 47)
    else if age < 887 * HOUR then AtMost(48 + (age - 191 * HOUR) / DAY, 70)
    else 71 + (age - 887 * HOUR) / (7 * DAY)
  }

  function AtMost(n: int, max: int): int {
    if n < max then n else max
  }

  /** Each capture raises the rank. */
  lemma RankRises(earlier: int, later: int)
    requires 0 <= earlier && SyncInterval(later).Some?
    requires later - earlier >= SyncInterval(later).value
    ensures Rank(earlier) + 1 <= Rank(later)
  {
    if later < 29 * HOUR {
      RankRisesHourly(earlier, later);
    } else if later < 191 * HOUR {
      RankRisesSixHourly(earlier, later);
    } else if later < 887 * HOUR {
      RankRisesDaily(earlier, later);
    }
  }

  lemma RankRisesHourly(earlier: int, later: int)
    requires 0 <= earlier && later < 29 * HOUR && later - earlier >= SyncInterval(later).value
    ensures Rank(earlier) + 1 <= Rank(later)
  {
  }

  lemma RankRisesSixHourly(earlier: int, later: int)
    requires 0 <= earlier && 29 * HOUR <= later < 191 * HOUR && later - earlier >= SyncInterval(later).value
    ensures Rank(earlier) + 1 <= Rank(later)
  {
  }

  lemma RankRisesDaily(earlier: int, later: int)
    requires 0 <= earlier && 191 * HOUR <= later < 887 * HOUR && later - earlier >= SyncInterval(later).value
    ensures Rank(earlier) + 1 <= Rank(later)
  {
  }

  /** Between two captures lies at least the interval of the later one's age, and none
      happens from age 90 days on. */
  ghost predicate Spaced(published: int, last: Option<int>, cs: seq<int>) {
    && (forall i :: 0 <= i < |cs| ==> InBand(published, cs[i]))
    && (forall i, j :: 0 <= i && j == i + 1 && j < |cs| ==> Apart(published, cs[i], cs[j]))
    && (cs != [] && last.Some? ==> Apart(published, last.value, cs[0]))
  }

  ghost predicate InBand(published: int, capture: int) {
    SyncInterval(capture - published).Some? && capture - published < 90 * DAY
  }

  ghost predicate Apart(published: int, earlier: int, later: int) {
    SyncInterval(later - published).Some? && later - earlier >= SyncInterval(later - published).value
  }

  lemma ConsSpaced(published: int, last: Option<int>, first: int, rest: seq<int>)
    requires Spaced(published, Some(first), rest) && Due(Some(published), last, first)
    ensures Spaced(published, last, [first] + rest)
  {
    var cs := [first] + rest;
    assert InBand(published, first) && (last.Some? ==> Apart(published, last.value, first));
    forall i, j | 0 <= i && j == i + 1 && j < |cs| ensures Apart(published, cs[i], cs[j]) {
      assert i > 0 ==> cs[i] == rest[i - 1] && cs[j] == rest[j - 1];
    }
  }

  lemma {:induction false} CapturesAreSpaced(published: int, last: Option<int>, ticks: seq<Tick>, capDays: nat)
    ensures Spaced(published, last, Captures(published, last, ticks, capDays))
    decreases |ticks|
  {
    if ticks != [] {
      if Step(published, last, ticks[0], capDays) {
        var rest := Captures(published, Some(ticks[0].now), ticks[1..], capDays);
        CapturesAreSpaced(published, Some(ticks[0].now), ticks[1..], capDays);
        ConsSpaced(published, last, ticks[0].now, rest);
      } else {
        CapturesAreSpaced(published, last, ticks[1..], capDays);
      }
    }
  }

  /** A pass at this time, within the cap, wrote a row. */
  ghost predicate WrittenBy(published: int, ticks: seq<Tick>, capDays: nat, capture: int) {
    && 0 < capDays && capture - published <= capDays * 86400
    && exists k :: 0 <= k < |ticks| && ticks[k].now == capture && ticks[k].wrote
  }

  /** Captures happen at passes that write a row, and none is made of a post older than the
      given number of days. */
  lemma {:induction false} CapturesAreWritten(published: int, last: Option<int>, ticks: seq<Tick>, capDays: nat)
    ensures forall i :: 0 <= i < |Captures(published, last, ticks, capDays)| ==>
              WrittenBy(published, ticks, capDays, Captures(published, last, ticks, capDays)[i])
    decreases |ticks|
  {
    if ticks != [] {
      var captured := Step(published, last, ticks[0], capDays);
      var last' := if captured then Some(ticks[0].now) else last;
      var rest := Captures(published, last', ticks[1..], capDays);
      CapturesAreWritten(published, last', ticks[1..], capDays);
      forall i | 0 <= i < |rest| ensures WrittenBy(published, ticks, capDays, rest[i]) {
        assert WrittenBy(published, ticks[1..], capDays, rest[i]);
        var k :| 0 <= k < |ticks| - 1 && ticks[1..][k].now == rest[i] && ticks[1..][k].wrote;
        assert ticks[k + 1] == ticks[1..][k];
      }
      assert captured ==> ticks[0].now == Captures(published, last, ticks, capDays)[0];
    }
  }

  /** And a first pass that writes does capture a post that is young enough. */
  lemma FirstPassCaptures(published: int, ticks: seq<Tick>, capDays: nat)
    requires ticks != [] && ticks[0].wrote
    requires ticks[0].now - published < 90 * 86400 && ticks[0].now - published <= capDays * 86400 && capDays > 0
    ensures Captures(published, None, ticks, capDays) != [] && Captures(published, None, ticks, capDays)[0] == ticks[0].now
  {
  }

  /** At most 79 captures per post over any run of the job, however often it ticks. */
  lemma {:induction false} CapturesAreBounded(published: int, last: Option<int>, ticks: seq<Tick>, capDays: nat)
    requires forall i :: 0 <= i < |ticks| ==> published <= ticks[i].now
    requires last.Some? ==> published <= last.value && SyncInterval(last.value - published).Some?
    ensures |Captures(published, last, ticks, capDays)|
            <= MAX_CAPTURES - (if last.Some? then Rank(last.value - published) + 1 else 0)
    decreases |ticks|
  {
    if ticks == [] {
      if last.Some? {
        RankInRange(last.value - published);
      }
    } else {
      assert published <= ticks[0].now;
      assert forall i :: 0 <= i < |ticks| - 1 ==> ticks[1..][i] == ticks[i + 1];
      if Step(published, last, ticks[0], capDays) {
        CapturesAreBounded(published, Some(ticks[0].now), ticks[1..], capDays);
        RankInRange(ticks[0].now - published);
        if last.Some? {
          RankRises(last.value - published, ticks[0].now - published);
        }
      } else {
        CapturesAreBounded(published, last, ticks[1..], capDays);
      }
    }
  }

  lemma RankInRange(age: int)
    requires 0 <= age && SyncInterval(age).Some?
    ensures 0 <= Rank(age) <= MAX_CAPTURES - 1
  {
  }

  /** The earliest ages at which 79 captures fit. */
  function GreedyAge(i: int): int {
    if i < 24 then i * HOUR
    else if i < 48 then 29 * HOUR + (i - 24) * 6 * HOUR
    else if i < 71 then 191 * HOUR + (i - 48) * DAY
    else 887 * HOUR + (i - 71) * 7 * DAY
  }

  function GreedyTicks(published: int, i: int): seq<Tick>
    requires 0 <= i <= MAX_CAPTURES
    decreases MAX_CAPTURES - i
  {
    if i == MAX_CAPTURES then [] else [Tick(published + GreedyAge(i), true)] + GreedyTicks(published, i + 1)
  }

  /** The bound is reached. */
  lemma {:induction false} GreedyReachesBound(published: int, i: int)
    requires 0 <= i <= MAX_CAPTURES
    ensures |Captures(published, if i == 0 then None else Some(published + GreedyAge(i - 1)),
                      GreedyTicks(published, i), 90)| == MAX_CAPTURES - i
    decreases MAX_CAPTURES - i
  {
    if i < MAX_CAPTURES {
      GreedyReachesBound(published, i + 1);
      var ticks := GreedyTicks(published, i);
      assert ticks[1..] == GreedyTicks(published, i + 1);
      assert i > 0 ==> GreedyAge(i) - GreedyAge(i - 1) >= SyncInterval(GreedyAge(i)).value;
    }
  }
}
