/** Generating the clones of recurring posts (apps/calendar/tasks.py). */
module Recurrence {
  import opened Common

  const LOOKAHEAD_DAYS := 90
  const MAX_RECURRENCES := 2 * LOOKAHEAD_DAYS

  datatype Frequency = Daily | Weekly | Monthly | Unknown

  /** A workspace's calendar: dates are ordinals, times of day whatever the zone yields.
      `addMonths` is the date library's month arithmetic. */
  datatype Clock = Clock(
    instant: (int, int) -> int, localDate: int -> int, localTime: int -> int, addMonths: (int, int) -> int)

  /** A wall-clock time falls on the date it was set for, and months move dates forward. */
  ghost predicate Regular(z: Clock) {
    && (forall d, a :: z.localDate(z.instant(d, z.localTime(a))) == d)
    && (forall d, n :: n >= 1 ==> z.addMonths(d, n) > d)
    && (forall d :: z.addMonths(d, 0) == d)
  }

  // ---------------------------------------------------------------------
  // Recurrence dates
  // ---------------------------------------------------------------------

  function Advance(z: Clock, d: int, f: Frequency, interval: nat): int {
    match f
    case Daily => d + interval
    case Weekly => d + 7 * interval
    case Monthly => z.addMonths(d, interval)
    case Unknown => d
  }

  /** At most `left` dates after `current`, up to `end`. */
  function DatesFrom(z: Clock, current: int, f: Frequency, interval: nat, end: int, left: nat): seq<int>
    decreases left
  {
    if left == 0 || f.Unknown? then []
    else
      var next := Advance(z, current, f, interval);
      if next > end then [] else [next] + DatesFrom(z, next, f, interval, end, left - 1)
  }

  method ComputeRecurrenceDates(z: Clock, base: int, f: Frequency, interval: nat, end: int, limit: nat)
    returns (dates: seq<int>)
    ensures dates == DatesFrom(z, base, f, interval, end, limit)
  {
    dates := [];
    var current := base;
    var i := 0;
    while i < limit
      invariant 0 <= i <= limit
      invariant dates + DatesFrom(z, current, f, interval, end, limit - i) == DatesFrom(z, base, f, interval, end, limit)
    {
      match f {
        case Daily => current := current + interval;
        case Weekly => current := current + 7 * interval;
        case Monthly => current := z.addMonths(current, interval);
        case Unknown => return;
      }
      if current > end {
        return;
      }
      ghost var rest := DatesFrom(z, current, f, interval, end, limit - i - 1);
      assert dates + ([current] + rest) == dates + [current] + rest;
      dates := dates + [current];
      i := i + 1;
    }
  }

  /** With an interval of at least one the dates ascend strictly, after the base date. */
  lemma {:induction false} DatesAscend(z: Clock, base: int, f: Frequency, interval: nat, end: int, left: nat)
    requires Regular(z) && interval >= 1
    ensures var dates := DatesFrom(z, base, f, interval, end, left);
            Ascending(dates) && forall i :: 0 <= i < |dates| ==> base < dates[i] <= end
    decreases left
  {
    if left > 0 && !f.Unknown? {
      var next := Advance(z, base, f, interval);
      if next <= end {
        DatesAscend(z, next, f, interval, end, left - 1);
      }
    }
  }

  /** The model field admits 0. Then the base date comes again and again. */
  lemma {:induction false} ZeroIntervalRepeats(z: Clock, base: int, f: Frequency, end: int, left: nat)
    requires Regular(z) && !f.Unknown? && base <= end
    ensures var dates := DatesFrom(z, base, f, 0, end, left);
            |dates| == left && forall i :: 0 <= i < left ==> dates[i] == base
    decreases left
  {
    if left > 0 {
      ZeroIntervalRepeats(z, base, f, end, left - 1);
    }
  }

  /** So the dates are free of repeats exactly when the interval is positive, or nothing but
      a single date can come out. */
  lemma DatesDistinctIff(z: Clock, base: int, f: Frequency, interval: nat, end: int, limit: nat)
    requires Regular(z)
    ensures Distinct(DatesFrom(z, base, f, interval, end, limit))
            <==> interval >= 1 || f.Unknown? || base > end || limit <= 1
  {
    var dates := DatesFrom(z, base, f, interval, end, limit);
    if interval >= 1 {
      DatesAscend(z, base, f, interval, end, limit);
    } else if !f.Unknown? && base <= end {
      ZeroIntervalRepeats(z, base, f, end, limit);
      if limit > 1 {
        assert dates[0] == dates[1];
      }
    }
  }

  /** The k-th date of a daily or weekly rule, counting from 0. */
  function KthDate(base: int, f: Frequency, interval: nat, k: nat): int {
    base + (k + 1) * (if f.Weekly? then 7 * interval else interval)
  }

  lemma KthDatesAscend(base: int, f: Frequency, interval: nat, j: nat, k: nat)
    requires interval >= 1 && j < k
    ensures KthDate(base, f, interval, j) < KthDate(base, f, interval, k)
  {
    var stride := if f.Weekly? then 7 * interval else interval;
    assert (k + 1) * stride == (j + 1) * stride + (k - j) * stride;
    assert (k - j) * stride >= 1;
  }

  lemma {:induction false} StridedDates(z: Clock, base: int, f: Frequency, interval: nat, end: int, left: nat, k: nat)
    requires interval >= 1 && (f.Daily? || f.Weekly?)
    ensures var dates := DatesFrom(z, base, f, interval, end, left);
            && |dates| <= left
            && (k < |dates| ==> dates[k] == KthDate(base, f, interval, k))
            && (k < |dates| <==> k < left && KthDate(base, f, interval, k) <= end)
    decreases left
  {
    if left > 0 {
      var next := KthDate(base, f, interval, 0);
      assert next == Advance(z, base, f, interval);
      if k > 0 {
        KthDatesAscend(base, f, interval, 0, k);
        assert KthDate(next, f, interval, k - 1) == KthDate(base, f, interval, k);
      }
      if next <= end {
        StridedDates(z, next, f, interval, end, left - 1, if k > 0 then k - 1 else 0);
      }
    }
  }

  /** The safety limit cuts a rule off: every date up to `end` is listed exactly when the
      first one past the limit lies beyond `end`. A daily rule whose source is more than
      180 days behind the horizon therefore misses dates. */
  lemma LimitCoversIff(z: Clock, base: int, f: Frequency, interval: nat, end: int, limit: nat)
    requires interval >= 1 && (f.Daily? || f.Weekly?)
    ensures (forall k: nat :: KthDate(base, f, interval, k) <= end ==>
               KthDate(base, f, interval, k) in DatesFrom(z, base, f, interval, end, limit))
            <==> KthDate(base, f, interval, limit) > end
  {
    var dates := DatesFrom(z, base, f, interval, end, limit);
    var beyond := KthDate(base, f, interval, limit);
    if beyond > end {
      forall k: nat | KthDate(base, f, interval, k) <= end ensures KthDate(base, f, interval, k) in dates {
        if k > limit {
          KthDatesAscend(base, f, interval, limit, k);
        }
        StridedDates(z, base, f, interval, end, limit, k);
      }
    } else {
      forall k | 0 <= k < |dates| ensures dates[k] < beyond {
        StridedDates(z, base, f, interval, end, limit, k);
        KthDatesAscend(base, f, interval, k, limit);
      }
    }
  }

  // ---------------------------------------------------------------------
  // Clones
  // ---------------------------------------------------------------------

  /** A post with its children's times; its row number identifies it. */
  datatype Post = Post(workspace: int, caption: string, at: Option<int>, children: seq<Option<int>>, isClone: bool)

  datatype Rule = Rule(source: nat, frequency: Frequency, interval: nat, endDate: Option<int>)

  function EarliestOf(times: seq<Option<int>>): Option<int> {
    if times == [] then None else Earlier(times[0], EarliestOf(times[1..]))
  }

  /** The children keep their offsets to the source's own time. */
  function Shifted(times: seq<Option<int>>, offset: int): seq<Option<int>> {
    if times == [] then []
    else [if times[0].Some? then Some(times[0].value + offset) else None] + Shifted(times[1..], offset)
  }

  /** The clone for one date; its own time is then set to its earliest child. */
  function CloneOf(z: Clock, p: Post, date: int): Post
    requires p.at.Some?
  {
    var scheduled := z.instant(date, z.localTime(p.at.value));
    var children := Shifted(p.children, scheduled - p.at.value);
    Post(p.workspace, p.caption, if children == [] then Some(scheduled) else EarliestOf(children), children, true)
  }

  /** A post's time is its earliest child's, or its own if it has no children. */
  predicate InSync(p: Post) {
    p.children != [] ==> p.at == EarliestOf(p.children)
  }

  lemma {:induction false} ShiftedEarliest(times: seq<Option<int>>, offset: int)
    ensures |Shifted(times, offset)| == |times|
    ensures forall i :: 0 <= i < |times| ==>
              Shifted(times, offset)[i] == if times[i].Some? then Some(times[i].value + offset) else None
    ensures EarliestOf(Shifted(times, offset))
            == if EarliestOf(times).Some? then Some(EarliestOf(times).value + offset) else None
  {
    if times != [] {
      ShiftedEarliest(times[1..], offset);
      assert Shifted(times, offset)[1..] == Shifted(times[1..], offset);
    }
  }

  /** A clone of a source in step falls on the date it was made for. */
  lemma CloneFallsOnItsDate(z: Clock, p: Post, date: int)
    requires Regular(z) && p.at.Some? && InSync(p)
    ensures var c := CloneOf(z, p, date);
            c.at.Some? && z.localDate(c.at.value) == date && InSync(c)
  {
    var scheduled := z.instant(date, z.localTime(p.at.value));
    ShiftedEarliest(p.children, scheduled - p.at.value);
  }

  /** Out of step it may get no time at all: when the children rely on the parent's time,
      syncing the clone clears it, and nothing marks its date as taken. */
  lemma ClonesOfFallbackChildrenVanish(z: Clock, p: Post, date: int)
    requires p.at.Some? && p.children != [] && EarliestOf(p.children).None?
    ensures CloneOf(z, p, date).at.None?
  {
    ShiftedEarliest(p.children, z.instant(date, z.localTime(p.at.value)) - p.at.value);
  }

  predicate FallsOn(z: Clock, p: Post, date: int) {
    p.at.Some? && z.localDate(p.at.value) == date
  }

  predicate SameSeries(p: Post, q: Post) {
    p.workspace == q.workspace && p.caption == q.caption
  }

  /** The dates of the source's series already taken by other posts. */
  function ExistingDates(z: Clock, posts: seq<Post>, source: nat, dates: seq<int>): set<int>
    requires source < |posts|
  {
    set i | 0 <= i < |posts| && i != source && SameSeries(posts[i], posts[source])
            && posts[i].at.Some? && z.localDate(posts[i].at.value) in dates :: z.localDate(posts[i].at.value)
  }

  function WithClones(z: Clock, posts: seq<Post>, p: Post, dates: seq<int>, existing: set<int>, today: int): seq<Post>
    requires p.at.Some?
    decreases |dates|
  {
    if dates == [] then posts
    else
      WithClones(z, if dates[0] in existing || dates[0] <= today then posts else posts + [CloneOf(z, p, dates[0])],
                 p, dates[1..], existing, today)
  }

  function EndDate(rule: Rule, today: int): int {
    if rule.endDate.Some? && rule.endDate.value <= today + LOOKAHEAD_DAYS then rule.endDate.value
    else today + LOOKAHEAD_DAYS
  }

  function RuleDates(z: Clock, p: Post, rule: Rule, now: int, limit: nat): seq<int>
    requires p.at.Some?
  {
    DatesFrom(z, z.localDate(p.at.value), rule.frequency, rule.interval, EndDate(rule, z.localDate(now)), limit)
  }

  function WithRule(z: Clock, posts: seq<Post>, rule: Rule, now: int, limit: nat): seq<Post>
    requires rule.source < |posts|
  {
    var p := posts[rule.source];
    if p.at.None? then posts
    else
      var dates := RuleDates(z, p, rule, now, limit);
      WithClones(z, posts, p, dates, ExistingDates(z, posts, rule.source, dates), z.localDate(now))
  }

  lemma {:induction false} ClonesAreAppended(z: Clock, posts: seq<Post>, p: Post, dates: seq<int>, existing: set<int>,
                                             today: int)
    requires p.at.Some?
    ensures posts <= WithClones(z, posts, p, dates, existing, today)
    decreases |dates|
  {
    if dates != [] {
      var one := if dates[0] in existing || dates[0] <= today then posts else posts + [CloneOf(z, p, dates[0])];
      ClonesAreAppended(z, one, p, dates[1..], existing, today);
    }
  }

  /** A clone for a date of the rule that lies after today and is not taken. */
  ghost predicate ClonedFor(z: Clock, p: Post, dates: seq<int>, existing: set<int>, today: int, clone: Post)
    requires p.at.Some?
  {
    exists d :: d in dates && d > today && d !in existing && clone == CloneOf(z, p, d)
  }

  /** What is added are clones for the rule's own dates, all after today and not taken yet. */
  lemma {:induction false} ClonesAreAhead(z: Clock, posts: seq<Post>, p: Post, dates: seq<int>, existing: set<int>,
                                          today: int)
    requires p.at.Some?
    ensures var r := WithClones(z, posts, p, dates, existing, today);
            forall i :: |posts| <= i < |r| ==> ClonedFor(z, p, dates, existing, today, r[i])
    decreases |dates|
  {
    if dates != [] {
      var skip := dates[0] in existing || dates[0] <= today;
      var one := if skip then posts else posts + [CloneOf(z, p, dates[0])];
      var r := WithClones(z, one, p, dates[1..], existing, today);
      ClonesAreAppended(z, one, p, dates[1..], existing, today);
      ClonesAreAhead(z, one, p, dates[1..], existing, today);
      if !skip {
        assert r[|posts|] == one[|posts|] && dates[0] in dates;
        assert ClonedFor(z, p, dates, existing, today, r[|posts|]);
      }
      forall clone | ClonedFor(z, p, dates[1..], existing, today, clone)
        ensures ClonedFor(z, p, dates, existing, today, clone)
      {
        var d :| d in dates[1..] && d > today && d !in existing && clone == CloneOf(z, p, d);
        assert d in dates;
      }
    }
  }

  ghost predicate RulesFit(rules: seq<Rule>, n: nat) {
    forall i :: 0 <= i < |rules| ==> rules[i].source < n
  }

  function WithRules(clockOf: int -> Clock, posts: seq<Post>, rules: seq<Rule>, now: int, limit: nat): (r: seq<Post>)
    requires RulesFit(rules, |posts|)
    decreases |rules|
  {
    if rules == [] then posts
    else
      var rule := rules[0];
      var z := clockOf(posts[rule.source].workspace);
      var next := WithRule(z, posts, rule, now, limit);
      RuleAppends(z, posts, rule, now, limit);
      WithRules(clockOf, next, rules[1..], now, limit)
  }

  lemma RuleAppends(z: Clock, posts: seq<Post>, rule: Rule, now: int, limit: nat)
    requires rule.source < |posts|
    ensures posts <= WithRule(z, posts, rule, now, limit)
  {
    var p := posts[rule.source];
    if p.at.Some? {
      var dates := RuleDates(z, p, rule, now, limit);
      ClonesAreAppended(z, posts, p, dates, ExistingDates(z, posts, rule.source, dates), z.localDate(now));
    }
  }

  class PostTable {
    const clockOf: int -> Clock
    var posts: seq<Post>

    constructor (clockOf: int -> Clock, posts: seq<Post>)
      ensures this.clockOf == clockOf && this.posts == posts
    {
      this.clockOf, this.posts := clockOf, posts;
    }

    /** The daily job over the active rules. */
    method GenerateRecurringPosts(rules: seq<Rule>, now: int) returns (generated: int)
      requires RulesFit(rules, |posts|)
      modifies this
      ensures posts == WithRules(clockOf, old(posts), rules, now, 180)
      ensures generated == |posts| - |old(posts)|
    {
      generated := 0;
      var limit := MAX_RECURRENCES;
      var i := 0;
      while i < |rules|
        invariant 0 <= i <= |rules| && RulesFit(rules, |posts|)
        invariant WithRules(clockOf, posts, rules[i..], now, limit) == WithRules(clockOf, old(posts), rules, now, limit)
        invariant generated == |posts| - |old(posts)|
      {
        var n := ApplyRule(rules[i], now, limit);
        RuleAppends(clockOf(posts[rules[i].source].workspace), posts, rules[i], now, limit);
        generated := generated + n;
        assert rules[i..][1..] == rules[i + 1..];
        i := i + 1;
      }
    }

    method ApplyRule(rule: Rule, now: int, limit: nat) returns (generated: int)
      requires rule.source < |posts|
      modifies this
      ensures posts == WithRule(clockOf(old(posts)[rule.source].workspace), old(posts), rule, now, limit)
      ensures old(posts) <= posts && generated == |posts| - |old(posts)|
    {
      var source := posts[rule.source];
      RuleAppends(clockOf(source.workspace), posts, rule, now, limit);
      if source.at.None? {
        return 0;
      }
      var z := clockOf(source.workspace);
      var baseDate, today := z.localDate(source.at.value), z.localDate(now);
      var cutoff := today + LOOKAHEAD_DAYS;
      var end := if rule.endDate.Some? then rule.endDate.value else cutoff;
      if end > cutoff {
        end := cutoff;
      }
      var dates := ComputeRecurrenceDates(z, baseDate, rule.frequency, rule.interval, end, limit);
      var existing := ExistingDates(z, posts, rule.source, dates);
      generated := 0;
      var i := 0;
      while i < |dates|
        invariant 0 <= i <= |dates|
        invariant WithClones(z, posts, source, dates[i..], existing, today)
                  == WithClones(z, old(posts), source, dates, existing, today)
        invariant generated == |posts| - |old(posts)|
      {
        assert dates[i..][1..] == dates[i + 1..];
        if !(dates[i] in existing || dates[i] <= today) {
          posts := posts + [CloneOf(z, source, dates[i])];
          generated := generated + 1;
        }
        i := i + 1;
      }
    }
  }

  // ---------------------------------------------------------------------
  // One clone per date
  // ---------------------------------------------------------------------

  /** A clone of the post's series on a date. */
  ghost predicate Taken(z: Clock, posts: seq<Post>, p: Post, date: int) {
    exists i :: 0 <= i < |posts| && posts[i].isClone && SameSeries(posts[i], p) && FallsOn(z, posts[i], date)
  }

  /** No two clones of one workspace and caption fall on the same local date. */
  ghost predicate OneClonePerDate(clockOf: int -> Clock, posts: seq<Post>) {
    forall i, j :: 0 <= i < j < |posts| && posts[i].isClone && posts[j].isClone && SameSeries(posts[i], posts[j])
                   && posts[i].at.Some? && posts[j].at.Some? ==>
      var z := clockOf(posts[i].workspace);
      z.localDate(posts[i].at.value) != z.localDate(posts[j].at.value)
  }

  lemma {:induction false} NothingToAdd(z: Clock, posts: seq<Post>, p: Post, dates: seq<int>, existing: set<int>,
                                        today: int)
    requires p.at.Some? && forall d :: d in dates ==> d in existing || d <= today
    ensures WithClones(z, posts, p, dates, existing, today) == posts
    decreases |dates|
  {
    if dates != [] {
      assert dates[0] in dates;
      NothingToAdd(z, posts, p, dates[1..], existing, today);
    }
  }

  /** Adding clones on the free dates of a strictly ascending list keeps one clone a date. */
  lemma {:induction false} AppendingKeepsDatesApart(clockOf: int -> Clock, posts: seq<Post>, p: Post, dates: seq<int>,
                                                    existing: set<int>, today: int)
    requires var z := clockOf(p.workspace); Regular(z) && p.at.Some? && InSync(p)
    requires Ascending(dates) && OneClonePerDate(clockOf, posts)
    requires forall d :: d in dates && Taken(clockOf(p.workspace), posts, p, d) ==> d in existing
    ensures OneClonePerDate(clockOf, WithClones(clockOf(p.workspace), posts, p, dates, existing, today))
    decreases |dates|
  {
    var z := clockOf(p.workspace);
    if dates != [] {
      var d := dates[0];
      CloneFallsOnItsDate(z, p, d);
      assert d in dates;
      if d in existing || d <= today {
        AppendingKeepsDatesApart(clockOf, posts, p, dates[1..], existing, today);
      } else {
        var one := posts + [CloneOf(z, p, d)];
        forall i | 0 <= i < |posts| && posts[i].isClone && SameSeries(posts[i], p)
          ensures !FallsOn(z, posts[i], d)
        {
          assert FallsOn(z, posts[i], d) ==> Taken(z, posts, p, d);
        }
        forall d' | d' in dates[1..] && Taken(z, one, p, d') ensures d' in existing {
          var k :| 0 <= k < |dates| - 1 && dates[1..][k] == d';
          assert d < d' && d' in dates;
          var i :| 0 <= i < |one| && one[i].isClone && SameSeries(one[i], p) && FallsOn(z, one[i], d');
          assert i < |posts| && one[i] == posts[i];
          assert Taken(z, posts, p, d');
        }
        AppendingKeepsDatesApart(clockOf, one, p, dates[1..], existing, today);
      }
    }
  }

  lemma RuleKeepsDatesApart(clockOf: int -> Clock, posts: seq<Post>, rule: Rule, now: int, limit: nat)
    requires rule.source < |posts| && OneClonePerDate(clockOf, posts)
    requires InSync(posts[rule.source]) && Regular(clockOf(posts[rule.source].workspace))
    requires var p := posts[rule.source]; p.at.Some? ==> !Piles(clockOf(p.workspace), p, rule, now)
    ensures OneClonePerDate(clockOf, WithRule(clockOf(posts[rule.source].workspace), posts, rule, now, limit))
  {
    var p := posts[rule.source];
    if p.at.Some? {
      var z := clockOf(p.workspace);
      var base, today := z.localDate(p.at.value), z.localDate(now);
      var dates := RuleDates(z, p, rule, now, limit);
      var existing := ExistingDates(z, posts, rule.source, dates);
      if rule.interval >= 1 {
        DatesAscend(z, base, rule.frequency, rule.interval, EndDate(rule, today), limit);
        forall d | d in dates && Taken(z, posts, p, d) ensures d in existing {
          var i :| 0 <= i < |posts| && posts[i].isClone && SameSeries(posts[i], p) && FallsOn(z, posts[i], d);
          var k :| 0 <= k < |dates| && dates[k] == d;
          assert d > base;
          assert i != rule.source;
        }
        AppendingKeepsDatesApart(clockOf, posts, p, dates, existing, today);
      } else {
        ZeroIntervalDates(z, base, rule.frequency, EndDate(rule, today), limit);
        assert forall d :: d in dates ==> d <= today;
        NothingToAdd(z, posts, p, dates, existing, today);
      }
    }
  }

  /** With interval 0 the base date is all that can come out. */
  lemma ZeroIntervalDates(z: Clock, base: int, f: Frequency, end: int, limit: nat)
    requires Regular(z)
    ensures var dates := DatesFrom(z, base, f, 0, end, limit);
            && (forall i :: 0 <= i < |dates| ==> dates[i] == base)
            && |dates| == if f.Unknown? || base > end then 0 else limit
  {
    if !f.Unknown? && base <= end {
      ZeroIntervalRepeats(z, base, f, end, limit);
    }
  }

  /** An interval of 0 and a source still ahead of today, within reach of the rule. */
  predicate Piles(z: Clock, p: Post, rule: Rule, now: int)
    requires p.at.Some?
  {
    rule.interval == 0 && !rule.frequency.Unknown?
    && z.localDate(now) < z.localDate(p.at.value) <= EndDate(rule, z.localDate(now))
  }

  /** Then the clones pile up on the source's own date, unless a post of the series is there
      already: one rule keeps one clone a date exactly when this is not the case. */
  lemma RuleKeepsDatesApartIff(clockOf: int -> Clock, posts: seq<Post>, rule: Rule, now: int, limit: nat)
    requires rule.source < |posts| && OneClonePerDate(clockOf, posts) && limit >= 2
    requires InSync(posts[rule.source]) && Regular(clockOf(posts[rule.source].workspace))
    ensures var p := posts[rule.source];
            var z := clockOf(p.workspace);
            OneClonePerDate(clockOf, WithRule(z, posts, rule, now, limit))
            <==> !(p.at.Some? && Piles(z, p, rule, now)
                   && !exists i :: 0 <= i < |posts| && i != rule.source && SameSeries(posts[i], p)
                                   && FallsOn(z, posts[i], z.localDate(p.at.value)))
  {
    var p := posts[rule.source];
    var z := clockOf(p.workspace);
    if p.at.None? || !Piles(z, p, rule, now) {
      RuleKeepsDatesApart(clockOf, posts, rule, now, limit);
    } else {
      var base, today := z.localDate(p.at.value), z.localDate(now);
      var dates := RuleDates(z, p, rule, now, limit);
      var existing := ExistingDates(z, posts, rule.source, dates);
      ZeroIntervalDates(z, base, rule.frequency, EndDate(rule, today), limit);
      assert dates[0] == base && dates[1] == base && base in dates;
      if i :| 0 <= i < |posts| && i != rule.source && SameSeries(posts[i], p) && FallsOn(z, posts[i], base) {
        assert base in existing;
        NothingToAdd(z, posts, p, dates, existing, today);
      } else {
        TwoClonesPile(clockOf, posts, p, dates, existing, today);
      }
    }
  }

  lemma TwoClonesPile(clockOf: int -> Clock, posts: seq<Post>, p: Post, dates: seq<int>, existing: set<int>, today: int)
    requires p.at.Some? && InSync(p) && Regular(clockOf(p.workspace))
    requires |dates| >= 2 && dates[1] == dates[0] && dates[0] !in existing && dates[0] > today
    ensures !OneClonePerDate(clockOf, WithClones(clockOf(p.workspace), posts, p, dates, existing, today))
  {
    var z, d, n := clockOf(p.workspace), dates[0], |posts|;
    var clone := CloneOf(z, p, d);
    CloneFallsOnItsDate(z, p, d);
    var two := posts + [clone] + [clone];
    ClonesAreAppended(z, two, p, dates[1..][1..], existing, today);
    var r := WithClones(z, posts, p, dates, existing, today);
    assert r == WithClones(z, posts + [clone], p, dates[1..], existing, today);
    assert r[n] == two[n] && r[n + 1] == two[n + 1];
  }

  /** The rules' sources: times in step, ordinary zones. */
  ghost predicate SoundRules(clockOf: int -> Clock, posts: seq<Post>, rules: seq<Rule>) {
    && RulesFit(rules, |posts|)
    && forall i :: 0 <= i < |rules| ==>
         InSync(posts[rules[i].source]) && Regular(clockOf(posts[rules[i].source].workspace))
  }

  /** And none of them piles clones up. */
  ghost predicate NonePiles(clockOf: int -> Clock, posts: seq<Post>, rules: seq<Rule>, now: int)
    requires RulesFit(rules, |posts|)
  {
    forall i :: 0 <= i < |rules| && posts[rules[i].source].at.Some? ==>
      !Piles(clockOf(posts[rules[i].source].workspace), posts[rules[i].source], rules[i], now)
  }

  /** One run of the job keeps at most one clone per workspace, caption and local date. */
  lemma {:induction false} RunKeepsDatesApart(clockOf: int -> Clock, posts: seq<Post>, rules: seq<Rule>,
                                              now: int, limit: nat)
    requires SoundRules(clockOf, posts, rules) && NonePiles(clockOf, posts, rules, now)
    requires OneClonePerDate(clockOf, posts)
    ensures OneClonePerDate(clockOf, WithRules(clockOf, posts, rules, now, limit))
    ensures posts <= WithRules(clockOf, posts, rules, now, limit)
    decreases |rules|
  {
    if rules != [] {
      var z := clockOf(posts[rules[0].source].workspace);
      var next := WithRule(z, posts, rules[0], now, limit);
      assert 0 <= 0 < |rules|;
      RuleKeepsDatesApart(clockOf, posts, rules[0], now, limit);
      RuleAppends(z, posts, rules[0], now, limit);
      assert forall i :: 0 <= i < |rules| - 1 ==> rules[1..][i] == rules[i + 1];
      RunKeepsDatesApart(clockOf, next, rules[1..], now, limit);
    }
  }

  function Runs(clockOf: int -> Clock, posts: seq<Post>, rules: seq<Rule>, nows: seq<int>, limit: nat): seq<Post>
    requires RulesFit(rules, |posts|)
    decreases |nows|
  {
    if nows == [] then posts
    else
      RunAppends(clockOf, posts, rules, nows[0], limit);
      Runs(clockOf, WithRules(clockOf, posts, rules, nows[0], limit), rules, nows[1..], limit)
  }

  lemma {:induction false} RunAppends(clockOf: int -> Clock, posts: seq<Post>, rules: seq<Rule>, now: int, limit: nat)
    requires RulesFit(rules, |posts|)
    ensures posts <= WithRules(clockOf, posts, rules, now, limit)
    decreases |rules|
  {
    if rules != [] {
      var z := clockOf(posts[rules[0].source].workspace);
      RuleAppends(z, posts, rules[0], now, limit);
      RunAppends(clockOf, WithRule(z, posts, rules[0], now, limit), rules[1..], now, limit);
    }
  }

  /** Likewise over any sequence of runs. */
  lemma {:induction false} RunsKeepDatesApart(clockOf: int -> Clock, posts: seq<Post>, rules: seq<Rule>,
                                              nows: seq<int>, limit: nat)
    requires SoundRules(clockOf, posts, rules) && OneClonePerDate(clockOf, posts)
    requires forall i :: 0 <= i < |nows| ==> NonePiles(clockOf, posts, rules, nows[i])
    ensures OneClonePerDate(clockOf, Runs(clockOf, posts, rules, nows, limit))
    decreases |nows|
  {
    if nows != [] {
      var next := WithRules(clockOf, posts, rules, nows[0], limit);
      RunAppends(clockOf, posts, rules, nows[0], limit);
      forall i | 0 <= i < |nows| - 1 ensures NonePiles(clockOf, next, rules, nows[1..][i]) {
        assert NonePiles(clockOf, posts, rules, nows[i + 1]);
      }
      RunKeepsDatesApart(clockOf, posts, rules, nows[0], limit);
      RunsKeepDatesApart(clockOf, WithRules(clockOf, posts, rules, nows[0], limit), rules, nows[1..], limit);
    }
  }
}
