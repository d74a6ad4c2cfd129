/** Which clones one rule makes, with dates, bounds and fields written out
    (apps/calendar/tasks.py). */
module RecurrenceReach {
  import opened Common
  import opened Recurrence
  import opened RecurrenceAgain

  // ---------------------------------------------------------------------
  // The dates of a schedule
  // ---------------------------------------------------------------------

  /** The k-th date of a monthly rule, counting from 0: month arithmetic repeated. */
  function MonthlyDate(z: Clock, base: int, interval: nat, k: nat): int
    decreases k
  {
    var next := z.addMonths(base, interval);
    if k == 0 then next else MonthlyDate(z, next, interval, k - 1)
  }

  /** The date is the k-th one of the rule. */
  ghost predicate IsKth(z: Clock, base: int, rule: Rule, k: nat, d: int) {
    match rule.frequency
    case Daily => d == base + (k + 1) * rule.interval
    case Weekly => d == base + (k + 1) * (7 * rule.interval)
    case Monthly => d == MonthlyDate(z, base, rule.interval, k)
    case Unknown => false
  }

  lemma {:induction false} MonthlyIsLater(z: Clock, base: int, interval: nat, k: nat)
    requires Regular(z) && interval >= 1
    ensures MonthlyDate(z, base, interval, k) > base
    decreases k
  {
    if k > 0 {
      MonthlyIsLater(z, z.addMonths(base, interval), interval, k - 1);
    }
  }

  /** A monthly rule lists its k-th date exactly when that is within the limit and not past
      the end. */
  lemma {:induction false} MonthlyDates(z: Clock, base: int, interval: nat, end: int, left: nat, k: nat)
    requires Regular(z) && interval >= 1
    ensures var dates := DatesFrom(z, base, Monthly, interval, end, left);
            && (k < |dates| ==> dates[k] == MonthlyDate(z, base, interval, k))
            && (k < |dates| <==> k < left && MonthlyDate(z, base, interval, k) <= end)
    decreases left
  {
    if left > 0 {
      var next := z.addMonths(base, interval);
      if k > 0 {
        MonthlyIsLater(z, next, interval, k - 1);
      }
      if next <= end {
        MonthlyDates(z, next, interval, end, left - 1, if k > 0 then k - 1 else 0);
      }
    }
  }

  /** Any rule with a positive interval lists exactly the dates of its schedule within the
      limit and up to the end. */
  lemma ListedIff(z: Clock, base: int, rule: Rule, end: int, limit: nat, d: int)
    requires Regular(z) && rule.interval >= 1
    ensures d in DatesFrom(z, base, rule.frequency, rule.interval, end, limit)
            <==> d <= end && exists k :: 0 <= k < limit && IsKth(z, base, rule, k, d)
  {
    var dates := DatesFrom(z, base, rule.frequency, rule.interval, end, limit);
    forall k: nat, e | IsKth(z, base, rule, k, e)
      ensures (k < |dates| ==> dates[k] == e) && (k < |dates| <==> k < limit && e <= end)
    {
      KthIsListed(z, base, rule, end, limit, k, e);
    }
    forall k | 0 <= k < |dates| ensures IsKth(z, base, rule, k, dates[k]) && k < limit && dates[k] <= end {
      ListedIsKth(z, base, rule, end, limit, k);
    }
    if d in dates {
      var k :| 0 <= k < |dates| && dates[k] == d;
      assert IsKth(z, base, rule, k, d);
    }
  }

  lemma KthIsListed(z: Clock, base: int, rule: Rule, end: int, limit: nat, k: nat, d: int)
    requires Regular(z) && rule.interval >= 1 && IsKth(z, base, rule, k, d)
    ensures var dates := DatesFrom(z, base, rule.frequency, rule.interval, end, limit);
            (k < |dates| ==> dates[k] == d) && (k < |dates| <==> k < limit && d <= end)
  {
    if rule.frequency.Monthly? {
      MonthlyDates(z, base, rule.interval, end, limit, k);
    } else {
      StridedDates(z, base, rule.frequency, rule.interval, end, limit, k);
    }
  }

  lemma ListedIsKth(z: Clock, base: int, rule: Rule, end: int, limit: nat, k: nat)
    requires Regular(z) && rule.interval >= 1
    requires k < |DatesFrom(z, base, rule.frequency, rule.interval, end, limit)|
    ensures var d := DatesFrom(z, base, rule.frequency, rule.interval, end, limit)[k];
            IsKth(z, base, rule, k, d) && k < limit && d <= end
  {
    if rule.frequency.Monthly? {
      MonthlyDates(z, base, rule.interval, end, limit, k);
    } else {
      StridedDates(z, base, rule.frequency, rule.interval, end, limit, k);
    }
  }

  // ---------------------------------------------------------------------
  // The clones of a rule
  // ---------------------------------------------------------------------

  /** After today, at most 90 days ahead, and not after the rule's own end. */
  predicate Within(rule: Rule, today: int, d: int) {
    today < d <= today + 90 && (rule.endDate.Some? ==> d <= rule.endDate.value)
  }

  /** Some other post in the source's workspace and with its caption falls on the date. */
  ghost predicate HasPost(z: Clock, posts: seq<Post>, source: nat, d: int)
    requires source < |posts|
  {
    exists i :: 0 <= i < |posts| && i != source && posts[i].workspace == posts[source].workspace
                && posts[i].caption == posts[source].caption
                && posts[i].at.Some? && z.localDate(posts[i].at.value) == d
  }

  lemma ExistingIff(z: Clock, posts: seq<Post>, source: nat, dates: seq<int>, d: int)
    requires source < |posts| && d in dates
    ensures d in ExistingDates(z, posts, source, dates) <==> HasPost(z, posts, source, d)
  {
    if HasPost(z, posts, source, d) {
      var i :| 0 <= i < |posts| && i != source && posts[i].workspace == posts[source].workspace
               && posts[i].caption == posts[source].caption
               && posts[i].at.Some? && z.localDate(posts[i].at.value) == d;
      assert SameSeries(posts[i], posts[source]);
    }
  }

  /** A due date of the rule: of its schedule, ahead, within its bounds, not taken yet. */
  ghost predicate Owed(z: Clock, posts: seq<Post>, rule: Rule, now: int, limit: nat, d: int)
    requires rule.source < |posts| && posts[rule.source].at.Some?
  {
    && Within(rule, z.localDate(now), d) && !HasPost(z, posts, rule.source, d)
    && exists k :: 0 <= k < limit && IsKth(z, z.localDate(posts[rule.source].at.value), rule, k, d)
  }

  lemma WantedIsOwed(z: Clock, posts: seq<Post>, rule: Rule, now: int, limit: nat, d: int)
    requires rule.source < |posts| && posts[rule.source].at.Some? && Regular(z) && rule.interval >= 1
    ensures Wanted(z, posts, rule, now, limit, d) <==> Owed(z, posts, rule, now, limit, d)
  {
    var p, today := posts[rule.source], z.localDate(now);
    var dates := RuleDates(z, p, rule, now, limit);
    ListedIff(z, z.localDate(p.at.value), rule, EndDate(rule, today), limit, d);
    if d in dates {
      ExistingIff(z, posts, rule.source, dates, d);
    }
  }

  /** The clone for a date starts at the source's local time of day on that date, and every
      child keeps its distance to it; a child without a time stays without. */
  ghost predicate IsCloneFor(z: Clock, p: Post, d: int, clone: Post)
    requires p.at.Some?
  {
    && clone.isClone && clone.workspace == p.workspace && clone.caption == p.caption
    && clone.at == Some(z.instant(d, z.localTime(p.at.value))) && z.localDate(clone.at.value) == d
    && |clone.children| == |p.children|
    && forall i :: 0 <= i < |p.children| ==>
         if p.children[i].None? then clone.children[i].None?
         else clone.children[i].Some? && clone.children[i].value - clone.at.value == p.children[i].value - p.at.value
  }

  lemma CloneIsFor(z: Clock, p: Post, d: int)
    requires Regular(z) && p.at.Some? && InSync(p)
    ensures IsCloneFor(z, p, d, CloneOf(z, p, d))
  {
    var scheduled := z.instant(d, z.localTime(p.at.value));
    ShiftedEarliest(p.children, scheduled - p.at.value);
  }

  ghost predicate ClonedAmong(z: Clock, r: seq<Post>, from: nat, p: Post, d: int)
    requires p.at.Some?
  {
    exists i :: from <= i < |r| && IsCloneFor(z, p, d, r[i])
  }

  /** One rule over a source in step makes a clone for every date it owes, and nothing else:
      none past the rule's own end, none more than 90 days ahead, none for a past date. */
  lemma RuleMakesOwedIff(z: Clock, posts: seq<Post>, rule: Rule, now: int, limit: nat)
    requires rule.source < |posts| && posts[rule.source].at.Some? && Regular(z) && InSync(posts[rule.source])
    requires rule.interval >= 1
    ensures var p, r := posts[rule.source], WithRule(z, posts, rule, now, limit);
            && posts <= r
            && (forall d :: Owed(z, posts, rule, now, limit, d) <==> ClonedAmong(z, r, |posts|, p, d))
            && (forall i :: |posts| <= i < |r| ==> MadeForOwed(z, posts, rule, now, limit, r[i]))
  {
    var p, r := posts[rule.source], WithRule(z, posts, rule, now, limit);
    var dates, today := RuleDates(z, p, rule, now, limit), z.localDate(now);
    RuleAppends(z, posts, rule, now, limit);
    OnlyOwedIsMade(z, posts, rule, now, limit);
    forall d | Owed(z, posts, rule, now, limit, d) ensures ClonedAmong(z, r, |posts|, p, d) {
      WantedIsOwed(z, posts, rule, now, limit, d);
      EachIsCloned(z, posts, p, dates, ExistingDates(z, posts, rule.source, dates), today, d);
      CloneIsFor(z, p, d);
      var i :| |posts| <= i < |r| && r[i] == CloneOf(z, p, d);
      assert IsCloneFor(z, p, d, r[i]);
    }
    forall d | ClonedAmong(z, r, |posts|, p, d) ensures Owed(z, posts, rule, now, limit, d) {
      var i :| |posts| <= i < |r| && IsCloneFor(z, p, d, r[i]);
      assert MadeForOwed(z, posts, rule, now, limit, r[i]);
      var e :| Owed(z, posts, rule, now, limit, e) && IsCloneFor(z, p, e, r[i]);
    }
  }

  ghost predicate MadeForOwed(z: Clock, posts: seq<Post>, rule: Rule, now: int, limit: nat, clone: Post)
    requires rule.source < |posts| && posts[rule.source].at.Some?
  {
    exists d :: Owed(z, posts, rule, now, limit, d) && IsCloneFor(z, posts[rule.source], d, clone)
  }

  lemma CloneIsWanted(z: Clock, posts: seq<Post>, rule: Rule, now: int, limit: nat, i: int) returns (d: int)
    requires rule.source < |posts| && posts[rule.source].at.Some?
    requires |posts| <= i < |WithRule(z, posts, rule, now, limit)|
    ensures Wanted(z, posts, rule, now, limit, d)
    ensures WithRule(z, posts, rule, now, limit)[i] == CloneOf(z, posts[rule.source], d)
  {
    var p, r := posts[rule.source], WithRule(z, posts, rule, now, limit);
    var dates, today := RuleDates(z, p, rule, now, limit), z.localDate(now);
    var existing := ExistingDates(z, posts, rule.source, dates);
    ClonesAreAhead(z, posts, p, dates, existing, today);
    assert r == WithClones(z, posts, p, dates, existing, today);
    assert ClonedFor(z, p, dates, existing, today, r[i]);
    d :| d in dates && d > today && d !in existing && r[i] == CloneOf(z, p, d);
  }

  lemma OnlyOwedIsMade(z: Clock, posts: seq<Post>, rule: Rule, now: int, limit: nat)
    requires rule.source < |posts| && posts[rule.source].at.Some? && Regular(z) && InSync(posts[rule.source])
    requires rule.interval >= 1
    ensures var r := WithRule(z, posts, rule, now, limit);
            forall i :: |posts| <= i < |r| ==> MadeForOwed(z, posts, rule, now, limit, r[i])
  {
    var p, r := posts[rule.source], WithRule(z, posts, rule, now, limit);
    forall i | |posts| <= i < |r| ensures MadeForOwed(z, posts, rule, now, limit, r[i]) {
      var d := CloneIsWanted(z, posts, rule, now, limit, i);
      WantedIsOwed(z, posts, rule, now, limit, d);
      CloneIsFor(z, p, d);
    }
  }

  /** Afterwards every date of the schedule within the limit and the bounds has a post. */
  lemma EveryDateHasAPost(z: Clock, posts: seq<Post>, rule: Rule, now: int, limit: nat, k: nat, d: int)
    requires rule.source < |posts| && posts[rule.source].at.Some? && Regular(z) && InSync(posts[rule.source])
    requires rule.interval >= 1 && k < limit && IsKth(z, z.localDate(posts[rule.source].at.value), rule, k, d)
    requires Within(rule, z.localDate(now), d)
    ensures rule.source < |WithRule(z, posts, rule, now, limit)|
    ensures HasPost(z, WithRule(z, posts, rule, now, limit), rule.source, d)
  {
    var p, r := posts[rule.source], WithRule(z, posts, rule, now, limit);
    RuleMakesOwedIff(z, posts, rule, now, limit);
    assert r[rule.source] == p;
    if HasPost(z, posts, rule.source, d) {
      var i :| 0 <= i < |posts| && i != rule.source && posts[i].workspace == p.workspace
               && posts[i].caption == p.caption && posts[i].at.Some? && z.localDate(posts[i].at.value) == d;
      assert r[i] == posts[i];
    } else {
      assert Owed(z, posts, rule, now, limit, d);
      var i :| |posts| <= i < |r| && IsCloneFor(z, p, d, r[i]);
    }
  }

  /** A rule with interval 0 keeps to the same bounds. */
  lemma ZeroIntervalKeepsBounds(z: Clock, posts: seq<Post>, rule: Rule, now: int, limit: nat)
    requires rule.source < |posts| && posts[rule.source].at.Some? && Regular(z) && InSync(posts[rule.source])
    requires rule.interval == 0
    ensures var p, r := posts[rule.source], WithRule(z, posts, rule, now, limit);
            var base := z.localDate(p.at.value);
            && posts <= r
            && (|r| > |posts| ==> Within(rule, z.localDate(now), base) && !HasPost(z, posts, rule.source, base))
            && forall i :: |posts| <= i < |r| ==> IsCloneFor(z, p, base, r[i])
  {
    var p, r := posts[rule.source], WithRule(z, posts, rule, now, limit);
    var dates, today, base := RuleDates(z, p, rule, now, limit), z.localDate(now), z.localDate(p.at.value);
    RuleAppends(z, posts, rule, now, limit);
    ZeroIntervalDates(z, base, rule.frequency, EndDate(rule, today), limit);
    CloneIsFor(z, p, base);
    forall i | |posts| <= i < |r|
      ensures IsCloneFor(z, p, base, r[i]) && Within(rule, today, base) && !HasPost(z, posts, rule.source, base)
    {
      var d := CloneIsWanted(z, posts, rule, now, limit, i);
      ExistingIff(z, posts, rule.source, dates, d);
    }
    assert |r| > |posts| ==> IsCloneFor(z, p, base, r[|posts|]);
  }
}
