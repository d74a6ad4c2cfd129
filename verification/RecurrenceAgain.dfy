/** Running the recurrence job twice at the same time (apps/calendar/tasks.py). */
module RecurrenceAgain {
  import opened Common
  import opened Recurrence

  /** Every date of the rule that is still to come has a post of its series. */
  ghost predicate Covered(z: Clock, posts: seq<Post>, rule: Rule, now: int, limit: nat)
    requires rule.source < |posts|
  {
    var p := posts[rule.source];
    p.at.Some? ==>
      forall d :: d in RuleDates(z, p, rule, now, limit) && d > z.localDate(now) ==>
        d in ExistingDates(z, posts, rule.source, RuleDates(z, p, rule, now, limit))
  }

  ghost predicate FoundFrom(z: Clock, posts: seq<Post>, from: nat, p: Post, d: int) {
    exists i :: from <= i < |posts| && SameSeries(posts[i], p) && FallsOn(z, posts[i], d)
  }

  lemma {:induction false} ClonesCover(z: Clock, posts: seq<Post>, p: Post, dates: seq<int>, existing: set<int>,
                                       today: int, d: int)
    requires Regular(z) && p.at.Some? && InSync(p)
    requires d in dates && d > today && d !in existing
    ensures FoundFrom(z, WithClones(z, posts, p, dates, existing, today), |posts|, p, d)
    decreases |dates|
  {
    var skip := dates[0] in existing || dates[0] <= today;
    var one := if skip then posts else posts + [CloneOf(z, p, dates[0])];
    var r := WithClones(z, one, p, dates[1..], existing, today);
    assert r == WithClones(z, posts, p, dates, existing, today);
    ClonesAreAppended(z, one, p, dates[1..], existing, today);
    if dates[0] == d {
      CloneFallsOnItsDate(z, p, d);
      assert r[|posts|] == one[|posts|];
      assert SameSeries(r[|posts|], p) && FallsOn(z, r[|posts|], d);
    } else {
      assert d in dates[1..];
      ClonesCover(z, one, p, dates[1..], existing, today, d);
      assert FoundFrom(z, r, |one|, p, d);
    }
  }

  /** Right after its rule has run, everything is covered. */
  lemma RuleCovers(z: Clock, posts: seq<Post>, rule: Rule, now: int, limit: nat)
    requires rule.source < |posts| && Regular(z) && InSync(posts[rule.source])
    ensures rule.source < |WithRule(z, posts, rule, now, limit)|
    ensures Covered(z, WithRule(z, posts, rule, now, limit), rule, now, limit)
  {
    var p, r := posts[rule.source], WithRule(z, posts, rule, now, limit);
    RuleAppends(z, posts, rule, now, limit);
    assert r[rule.source] == p;
    if p.at.Some? {
      var dates := RuleDates(z, p, rule, now, limit);
      var existing := ExistingDates(z, posts, rule.source, dates);
      forall d | d in dates && d > z.localDate(now) ensures d in ExistingDates(z, r, rule.source, dates) {
        if d in existing {
          var i :| 0 <= i < |posts| && i != rule.source && SameSeries(posts[i], p) && FallsOn(z, posts[i], d);
          assert r[i] == posts[i];
        } else {
          ClonesCover(z, posts, p, dates, existing, z.localDate(now), d);
          var i :| |posts| <= i < |r| && SameSeries(r[i], p) && FallsOn(z, r[i], d);
        }
      }
    }
  }

  /** More posts never uncover a date. */
  lemma CoveredStays(z: Clock, posts: seq<Post>, more: seq<Post>, rule: Rule, now: int, limit: nat)
    requires rule.source < |posts| && posts <= more && Covered(z, posts, rule, now, limit)
    ensures Covered(z, more, rule, now, limit)
  {
    var p := posts[rule.source];
    assert more[rule.source] == p;
    if p.at.Some? {
      var dates := RuleDates(z, p, rule, now, limit);
      forall d | d in ExistingDates(z, posts, rule.source, dates) ensures d in ExistingDates(z, more, rule.source, dates) {
        var i :| 0 <= i < |posts| && i != rule.source && SameSeries(posts[i], p)
                 && posts[i].at.Some? && z.localDate(posts[i].at.value) in dates && z.localDate(posts[i].at.value) == d;
        assert more[i] == posts[i];
      }
    }
  }

  ghost predicate AllCovered(clockOf: int -> Clock, posts: seq<Post>, rules: seq<Rule>, now: int, limit: nat) {
    && RulesFit(rules, |posts|)
    && forall i :: 0 <= i < |rules| ==>
         Covered(clockOf(posts[rules[i].source].workspace), posts, rules[i], now, limit)
  }

  lemma {:induction false} CoveredRunAddsNothing(clockOf: int -> Clock, posts: seq<Post>, rules: seq<Rule>,
                                                 now: int, limit: nat)
    requires AllCovered(clockOf, posts, rules, now, limit)
    ensures WithRules(clockOf, posts, rules, now, limit) == posts
    decreases |rules|
  {
    if rules != [] {
      var rule := rules[0];
      var p := posts[rule.source];
      var z := clockOf(p.workspace);
      assert Covered(z, posts, rule, now, limit);
      if p.at.Some? {
        var dates := RuleDates(z, p, rule, now, limit);
        NothingToAdd(z, posts, p, dates, ExistingDates(z, posts, rule.source, dates), z.localDate(now));
      }
      assert forall i :: 0 <= i < |rules| - 1 ==> rules[1..][i] == rules[i + 1];
      CoveredRunAddsNothing(clockOf, posts, rules[1..], now, limit);
    }
  }

  lemma {:induction false} RunCovers(clockOf: int -> Clock, posts: seq<Post>, rules: seq<Rule>, now: int, limit: nat)
    requires SoundRules(clockOf, posts, rules)
    ensures posts <= WithRules(clockOf, posts, rules, now, limit)
    ensures AllCovered(clockOf, WithRules(clockOf, posts, rules, now, limit), rules, now, limit)
    decreases |rules|
  {
    if rules != [] {
      var rule := rules[0];
      var z := clockOf(posts[rule.source].workspace);
      var next := WithRule(z, posts, rule, now, limit);
      assert 0 <= 0 < |rules|;
      RuleAppends(z, posts, rule, now, limit);
      RuleCovers(z, posts, rule, now, limit);
      assert forall i :: 0 <= i < |rules| - 1 ==> rules[1..][i] == rules[i + 1];
      RunCovers(clockOf, next, rules[1..], now, limit);
      var r := WithRules(clockOf, posts, rules, now, limit);
      CoveredStays(z, next, r, rule, now, limit);
      forall i | 0 <= i < |rules|
        ensures rules[i].source < |r| && Covered(clockOf(r[rules[i].source].workspace), r, rules[i], now, limit)
      {
        if i > 0 {
          assert rules[1..][i - 1] == rules[i];
        }
      }
    }
  }

  /** A second run at the same time creates nothing. */
  lemma SecondRunCreatesNothing(clockOf: int -> Clock, posts: seq<Post>, rules: seq<Rule>, now: int, limit: nat)
    requires SoundRules(clockOf, posts, rules)
    ensures var once := WithRules(clockOf, posts, rules, now, limit);
            RulesFit(rules, |once|) && WithRules(clockOf, once, rules, now, limit) == once
  {
    RunCovers(clockOf, posts, rules, now, limit);
    CoveredRunAddsNothing(clockOf, WithRules(clockOf, posts, rules, now, limit), rules, now, limit);
  }

  // ---------------------------------------------------------------------
  // Any source
  // ---------------------------------------------------------------------

  /** A date for which the rule makes a clone. */
  ghost predicate Wanted(z: Clock, posts: seq<Post>, rule: Rule, now: int, limit: nat, d: int)
    requires rule.source < |posts| && posts[rule.source].at.Some?
  {
    var dates := RuleDates(z, posts[rule.source], rule, now, limit);
    d in dates && d > z.localDate(now) && d !in ExistingDates(z, posts, rule.source, dates)
  }

  /** Some clone that the rule makes falls on the date. */
  ghost predicate HitByClone(z: Clock, posts: seq<Post>, rule: Rule, now: int, limit: nat, d: int)
    requires rule.source < |posts| && posts[rule.source].at.Some?
  {
    exists e :: Wanted(z, posts, rule, now, limit, e) && FallsOn(z, CloneOf(z, posts[rule.source], e), d)
  }

  ghost predicate CloneAmong(z: Clock, r: seq<Post>, from: nat, p: Post, d: int)
    requires p.at.Some?
  {
    exists i :: from <= i < |r| && r[i] == CloneOf(z, p, d)
  }

  lemma {:induction false} EachIsCloned(z: Clock, posts: seq<Post>, p: Post, dates: seq<int>, existing: set<int>,
                                        today: int, d: int)
    requires p.at.Some? && d in dates && d > today && d !in existing
    ensures var r := WithClones(z, posts, p, dates, existing, today);
            CloneAmong(z, r, |posts|, p, d)
    decreases |dates|
  {
    var skip := dates[0] in existing || dates[0] <= today;
    var one := if skip then posts else posts + [CloneOf(z, p, dates[0])];
    var r := WithClones(z, one, p, dates[1..], existing, today);
    ClonesAreAppended(z, one, p, dates[1..], existing, today);
    if dates[0] == d {
      assert r[|posts|] == one[|posts|];
    } else {
      assert d in dates[1..];
      EachIsCloned(z, one, p, dates[1..], existing, today, d);
      var i :| |one| <= i < |r| && r[i] == CloneOf(z, p, d);
      assert |posts| <= i < |r|;
    }
  }

  /** After the rule a date is taken if it was before, or if one of the clones falls on it. */
  lemma TakenAfterwards(z: Clock, posts: seq<Post>, rule: Rule, now: int, limit: nat, d: int)
    requires rule.source < |posts| && posts[rule.source].at.Some?
    requires var dates := RuleDates(z, posts[rule.source], rule, now, limit);
             d in dates && d !in ExistingDates(z, posts, rule.source, dates)
    ensures var r, dates := WithRule(z, posts, rule, now, limit), RuleDates(z, posts[rule.source], rule, now, limit);
            && posts <= r
            && (d in ExistingDates(z, r, rule.source, dates) <==> HitByClone(z, posts, rule, now, limit, d))
  {
    var p, r := posts[rule.source], WithRule(z, posts, rule, now, limit);
    var dates, today := RuleDates(z, p, rule, now, limit), z.localDate(now);
    var existing := ExistingDates(z, posts, rule.source, dates);
    RuleAppends(z, posts, rule, now, limit);
    ClonesAreAhead(z, posts, p, dates, existing, today);
    assert r == WithClones(z, posts, p, dates, existing, today);
    if d in ExistingDates(z, r, rule.source, dates) {
      var i :| 0 <= i < |r| && i != rule.source && SameSeries(r[i], r[rule.source])
               && r[i].at.Some? && z.localDate(r[i].at.value) in dates && z.localDate(r[i].at.value) == d;
      assert posts == r[..|posts|];
      assert i >= |posts|;
      assert ClonedFor(z, p, dates, existing, today, r[i]);
      var e :| e in dates && e > today && e !in existing && r[i] == CloneOf(z, p, e);
      assert Wanted(z, posts, rule, now, limit, e);
    }
    if HitByClone(z, posts, rule, now, limit, d) {
      var e :| Wanted(z, posts, rule, now, limit, e) && FallsOn(z, CloneOf(z, p, e), d);
      EachIsCloned(z, posts, p, dates, existing, today, e);
      var i :| |posts| <= i < |r| && r[i] == CloneOf(z, p, e);
      assert r[rule.source] == p && SameSeries(r[i], p);
    }
  }

  /** For any source, in step or not: a second run of its rule adds nothing exactly when each
      date cloned for is hit by one of the clones. */
  lemma SecondRunAddsNothingIff(z: Clock, posts: seq<Post>, rule: Rule, now: int, limit: nat)
    requires rule.source < |posts| && posts[rule.source].at.Some?
    ensures var once := WithRule(z, posts, rule, now, limit);
            && rule.source < |once|
            && (WithRule(z, once, rule, now, limit) == once
                <==> forall d :: Wanted(z, posts, rule, now, limit, d) ==> HitByClone(z, posts, rule, now, limit, d))
  {
    var p, once := posts[rule.source], WithRule(z, posts, rule, now, limit);
    var dates, today := RuleDates(z, p, rule, now, limit), z.localDate(now);
    RuleAppends(z, posts, rule, now, limit);
    assert once[rule.source] == p;
    var existing := ExistingDates(z, once, rule.source, dates);
    if forall d :: Wanted(z, posts, rule, now, limit, d) ==> HitByClone(z, posts, rule, now, limit, d) {
      forall d | d in dates ensures d in existing || d <= today {
        StillTaken(z, posts, once, rule, dates, d);
        if d !in ExistingDates(z, posts, rule.source, dates) && d > today {
          assert Wanted(z, posts, rule, now, limit, d);
          TakenAfterwards(z, posts, rule, now, limit, d);
        }
      }
      NothingToAdd(z, once, p, dates, existing, today);
    } else {
      var d :| Wanted(z, posts, rule, now, limit, d) && !HitByClone(z, posts, rule, now, limit, d);
      TakenAfterwards(z, posts, rule, now, limit, d);
      EachIsCloned(z, once, p, dates, existing, today, d);
    }
  }

  lemma StillTaken(z: Clock, posts: seq<Post>, more: seq<Post>, rule: Rule, dates: seq<int>, d: int)
    requires rule.source < |posts| && posts <= more
    ensures d in ExistingDates(z, posts, rule.source, dates) ==> d in ExistingDates(z, more, rule.source, dates)
  {
    if d in ExistingDates(z, posts, rule.source, dates) {
      var i :| 0 <= i < |posts| && i != rule.source && SameSeries(posts[i], posts[rule.source])
               && posts[i].at.Some? && z.localDate(posts[i].at.value) in dates && z.localDate(posts[i].at.value) == d;
      assert more[i] == posts[i] && more[rule.source] == posts[rule.source];
    }
  }

  /** For a source in step that is always so. */
  lemma InStepIsHit(z: Clock, posts: seq<Post>, rule: Rule, now: int, limit: nat)
    requires rule.source < |posts| && posts[rule.source].at.Some? && Regular(z) && InSync(posts[rule.source])
    ensures forall d :: Wanted(z, posts, rule, now, limit, d) ==> HitByClone(z, posts, rule, now, limit, d)
  {
    forall d | Wanted(z, posts, rule, now, limit, d) ensures HitByClone(z, posts, rule, now, limit, d) {
      CloneFallsOnItsDate(z, posts[rule.source], d);
    }
  }

  /** If the children all rely on the source's own time, only when there is nothing to clone:
      otherwise each run makes as many timeless clones as the one before. */
  lemma FallbackIsNeverHit(z: Clock, posts: seq<Post>, rule: Rule, now: int, limit: nat)
    requires rule.source < |posts| && posts[rule.source].at.Some?
    requires posts[rule.source].children != [] && EarliestOf(posts[rule.source].children).None?
    ensures (forall d :: Wanted(z, posts, rule, now, limit, d) ==> HitByClone(z, posts, rule, now, limit, d))
            <==> forall d :: !Wanted(z, posts, rule, now, limit, d)
  {
    forall d ensures !HitByClone(z, posts, rule, now, limit, d) {
      forall e | Wanted(z, posts, rule, now, limit, e) ensures !FallsOn(z, CloneOf(z, posts[rule.source], e), d) {
        ClonesOfFallbackChildrenVanish(z, posts[rule.source], e);
      }
    }
  }

  // ---------------------------------------------------------------------
  // How many clones a source out of step makes
  // ---------------------------------------------------------------------

  /** How many dates are neither taken nor past. */
  function FreeDates(dates: seq<int>, existing: set<int>, today: int): nat {
    if dates == [] then 0
    else FreeDates(dates[1..], existing, today) + (if dates[0] in existing || dates[0] <= today then 0 else 1)
  }

  lemma {:induction false} ClonesCounted(z: Clock, posts: seq<Post>, p: Post, dates: seq<int>, existing: set<int>,
                                         today: int)
    requires p.at.Some? && p.children != [] && EarliestOf(p.children).None?
    ensures var r := WithClones(z, posts, p, dates, existing, today);
            && posts <= r && |r| == |posts| + FreeDates(dates, existing, today)
            && forall i :: |posts| <= i < |r| ==> r[i].at.None?
    decreases |dates|
  {
    if dates != [] {
      ClonesOfFallbackChildrenVanish(z, p, dates[0]);
      var one := if dates[0] in existing || dates[0] <= today then posts else posts + [CloneOf(z, p, dates[0])];
      ClonesCounted(z, one, p, dates[1..], existing, today);
    }
  }

  /** When a source's children all rely on its own time, the second run creates as many
      clones as the first, and so does every later one. */
  lemma FallbackSourceRepeats(z: Clock, posts: seq<Post>, rule: Rule, now: int, limit: nat)
    requires rule.source < |posts|
    requires var p := posts[rule.source]; p.at.Some? && p.children != [] && EarliestOf(p.children).None?
    ensures var once := WithRule(z, posts, rule, now, limit);
            && rule.source < |once|
            && |WithRule(z, once, rule, now, limit)| - |once| == |once| - |posts|
  {
    var p, once := posts[rule.source], WithRule(z, posts, rule, now, limit);
    var dates := RuleDates(z, p, rule, now, limit);
    var existing, today := ExistingDates(z, posts, rule.source, dates), z.localDate(now);
    ClonesCounted(z, posts, p, dates, existing, today);
    assert once[rule.source] == p;
    assert ExistingDates(z, once, rule.source, dates) == existing by {
      forall d | d in existing ensures d in ExistingDates(z, once, rule.source, dates) {
        var i :| 0 <= i < |posts| && i != rule.source && SameSeries(posts[i], p)
                 && posts[i].at.Some? && z.localDate(posts[i].at.value) in dates && z.localDate(posts[i].at.value) == d;
        assert once[i] == posts[i];
      }
    }
    ClonesCounted(z, once, p, dates, existing, today);
  }

  lemma {:induction false} NoFreeDates(dates: seq<int>, existing: set<int>, today: int)
    ensures FreeDates(dates, existing, today) == 0 <==> forall d :: d in dates ==> d in existing || d <= today
  {
    if dates != [] {
      NoFreeDates(dates[1..], existing, today);
      assert dates == [dates[0]] + dates[1..];
    }
  }

  /** For sources in step, and for those whose children rely on their time: a second run adds
      nothing exactly when the source is in step or no date is free. */
  lemma SecondRunByCountIff(z: Clock, posts: seq<Post>, rule: Rule, now: int, limit: nat)
    requires rule.source < |posts| && Regular(z)
    requires var p := posts[rule.source];
             p.at.Some? && (InSync(p) || (p.children != [] && EarliestOf(p.children).None?))
    ensures var p, once := posts[rule.source], WithRule(z, posts, rule, now, limit);
            var dates := RuleDates(z, p, rule, now, limit);
            && rule.source < |once|
            && (WithRule(z, once, rule, now, limit) == once
                <==> InSync(p) || FreeDates(dates, ExistingDates(z, posts, rule.source, dates), z.localDate(now)) == 0)
  {
    var p := posts[rule.source];
    var dates := RuleDates(z, p, rule, now, limit);
    SecondRunAddsNothingIff(z, posts, rule, now, limit);
    if InSync(p) {
      InStepIsHit(z, posts, rule, now, limit);
    } else {
      FallbackIsNeverHit(z, posts, rule, now, limit);
      NoFreeDates(dates, ExistingDates(z, posts, rule.source, dates), z.localDate(now));
      assert forall d :: d in dates && !(d in ExistingDates(z, posts, rule.source, dates) || d <= z.localDate(now)) ==>
                           Wanted(z, posts, rule, now, limit, d);
    }
  }
}
