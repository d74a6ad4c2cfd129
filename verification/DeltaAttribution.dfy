/** Turning cumulative per-post snapshots into credits per day
    (apps/analytics/services.py). Values are exact reals. */
module DeltaAttribution {
  import opened Common

  /** A snapshot of one post's cumulative count; days are date ordinals. */
  datatype Obs = Obs(post: int, published: Option<int>, day: int, value: real, captured: Option<int>)

  /** What the query returns: rows of the window, post by post and day by day, one row per
      post and day; the publish date belongs to the post. */
  ghost predicate Queried(rows: seq<Obs>, start: int, end: int) {
    && (forall k :: 0 <= k < |rows| ==> start <= rows[k].day <= end)
    && (forall i, k :: 0 <= i < k < |rows| ==>
          rows[i].post < rows[k].post
          || (rows[i].post == rows[k].post && rows[i].day < rows[k].day && rows[i].published == rows[k].published))
  }

  function Max(a: real, b: real): (r: real)
    ensures r >= a && r >= b && (r == a || r == b)
  {
    if a < b then b else a
  }

  /** The greatest value among the first `n` rows that belong to the post. */
  function HighWater(rows: seq<Obs>, n: nat, post: int): Option<real>
    requires n <= |rows|
  {
    if n == 0 then None
    else
      var prior := HighWater(rows, n - 1, post);
      if rows[n - 1].post != post then prior
      else if prior.None? then Some(rows[n - 1].value)
      else Some(Max(prior.value, rows[n - 1].value))
  }

  /** How a post's first observation is spread: onto its own day when the publish date is
      missing or later, nowhere when the post predates the window, evenly over the days
      since publication otherwise. */
  function FirstCredit(o: Obs, start: int, end: int, d: int): real {
    if o.published.None? || o.published.value > o.day then
      if d == o.day && start <= d <= end then o.value else 0.0
    else if o.published.value < start then 0.0
    else if o.published.value <= d <= o.day && start <= d <= end then
      o.value / ((o.day - o.published.value + 1) as real)
    else 0.0
  }

  /** What row `k` adds to day `d`: after the first observation, whatever rises above the
      post's high-water mark. */
  function RowCredit(rows: seq<Obs>, k: nat, start: int, end: int, d: int): real
    requires k < |rows|
  {
    match HighWater(rows, k, rows[k].post)
    case None => FirstCredit(rows[k], start, end, d)
    case Some(mark) => if d == rows[k].day then Max(rows[k].value - mark, 0.0) else 0.0
  }

  /** The credit of day `d` over the first `n` rows. */
  function DayCredit(rows: seq<Obs>, n: nat, start: int, end: int, d: int): real
    requires n <= |rows|
  {
    if n == 0 then 0.0 else DayCredit(rows, n - 1, start, end, d) + RowCredit(rows, n - 1, start, end, d)
  }

  function At(out: map<int, real>, d: int): real {
    if d in out then out[d] else 0.0
  }

  // ---------------------------------------------------------------------
  // The loop
  // ---------------------------------------------------------------------

  /** Spreading one value over [from, last], inside the window. */
  method Distribute(out: map<int, real>, from: int, last: int, perDay: real, start: int, end: int)
    returns (r: map<int, real>)
    ensures forall d :: At(r, d) == At(out, d) + (if from <= d <= last && start <= d <= end then perDay else 0.0)
    ensures forall d :: d in r ==> d in out || start <= d <= end
  {
    r := out;
    var d := from;
    while d <= last
      invariant from <= d
      invariant forall x :: At(r, x) == At(out, x) + (if from <= x < d && x <= last && start <= x <= end then perDay else 0.0)
      invariant forall x :: x in r ==> x in out || start <= x <= end
      decreases last - d
    {
      if start <= d <= end {
        r := r[d := At(r, d) + perDay];
      }
      d := d + 1;
    }
  }

  /** The first observation of a post. */
  method CreditFirst(out: map<int, real>, o: Obs, start: int, end: int) returns (r: map<int, real>)
    ensures forall d :: At(r, d) == At(out, d) + FirstCredit(o, start, end, d)
    ensures forall d :: d in r ==> d in out || start <= d <= end
  {
    if o.published.None? || o.published.value > o.day {
      r := out;
      if start <= o.day <= end {
        r := r[o.day := At(r, o.day) + o.value];
      }
    } else if o.published.value < start {
      r := out;
    } else {
      var nDays := o.day - o.published.value + 1;
      r := Distribute(out, o.published.value, o.day, o.value / (nDays as real), start, end);
    }
  }

  /** The running previous value is the post's high-water mark, and "first observation" means
      that the post has no mark yet. */
  ghost predicate Running(rows: seq<Obs>, k: nat, current: Option<int>, prev: real, first: bool)
    requires k <= |rows|
  {
    && (current.Some? <==> k > 0)
    && (k > 0 ==> current == Some(rows[k - 1].post) && !first
                  && HighWater(rows, k, rows[k - 1].post) == Some(prev))
  }

  lemma {:induction false} NewPostHasNoMark(rows: seq<Obs>, n: nat, post: int)
    requires n <= |rows| && forall i :: 0 <= i < n ==> rows[i].post != post
    ensures HighWater(rows, n, post).None?
  {
    if n > 0 {
      NewPostHasNoMark(rows, n - 1, post);
    }
  }

  method PostSummedSeries(rows: seq<Obs>, start: int, end: int)
    returns (out: map<int, real>, maxCaptured: Option<int>)
    requires Queried(rows, start, end)
    ensures forall d :: At(out, d) == DayCredit(rows, |rows|, start, end, d)
    ensures forall d :: d in out ==> start <= d <= end
    ensures maxCaptured.None? <==> forall k :: 0 <= k < |rows| ==> rows[k].captured.None?
    ensures maxCaptured.Some? ==> exists k :: 0 <= k < |rows| && rows[k].captured == maxCaptured
    ensures forall k :: 0 <= k < |rows| && rows[k].captured.Some? && maxCaptured.Some? ==>
              rows[k].captured.value <= maxCaptured.value
  {
    out, maxCaptured := map[], None;
    var current: Option<int> := None;
    var prev, first := 0.0, true;
    var k := 0;
    while k < |rows|
      invariant 0 <= k <= |rows|
      invariant Running(rows, k, current, prev, first)
      invariant forall d :: At(out, d) == DayCredit(rows, k, start, end, d)
      invariant forall d :: d in out ==> start <= d <= end
      invariant maxCaptured.None? <==> forall i :: 0 <= i < k ==> rows[i].captured.None?
      invariant maxCaptured.Some? ==> exists i :: 0 <= i < k && rows[i].captured == maxCaptured
      invariant forall i :: 0 <= i < k && rows[i].captured.Some? && maxCaptured.Some? ==>
                  rows[i].captured.value <= maxCaptured.value
    {
      var o := rows[k];
      if current != Some(o.post) {
        current, first, prev := Some(o.post), true, 0.0;
        NewPostHasNoMark(rows, k, o.post);
      }
      if o.captured.Some? && (maxCaptured.None? || o.captured.value > maxCaptured.value) {
        maxCaptured := o.captured;
      }
      if first {
        first := false;
        out := CreditFirst(out, o, start, end);
        prev := o.value;
      } else {
        var delta := o.value - prev;
        if delta > 0.0 {
          prev := o.value;
          out := out[o.day := At(out, o.day) + delta];
        }
      }
      k := k + 1;
    }
  }

  // ---------------------------------------------------------------------
  // Conservation
  // ---------------------------------------------------------------------

  /** The credits of one post on day `d`. */
  function PostCredit(rows: seq<Obs>, n: nat, post: int, start: int, end: int, d: int): real
    requires n <= |rows|
  {
    if n == 0 then 0.0
    else PostCredit(rows, n - 1, post, start, end, d)
         + (if rows[n - 1].post == post then RowCredit(rows, n - 1, start, end, d) else 0.0)
  }

  /** Days [start, past) summed. */
  function RowSum(rows: seq<Obs>, k: nat, start: int, end: int, past: int): real
    requires k < |rows|
    decreases past - start
  {
    if past <= start then 0.0
    else RowSum(rows, k, start, end, past - 1) + RowCredit(rows, k, start, end, past - 1)
  }

  function PostSum(rows: seq<Obs>, n: nat, post: int, start: int, end: int, past: int): real
    requires n <= |rows|
    decreases past - start
  {
    if past <= start then 0.0
    else PostSum(rows, n, post, start, end, past - 1) + PostCredit(rows, n, post, start, end, past - 1)
  }

  lemma {:induction false} PostSumStep(rows: seq<Obs>, n: nat, post: int, start: int, end: int, past: int)
    requires n < |rows|
    ensures PostSum(rows, n + 1, post, start, end, past)
            == PostSum(rows, n, post, start, end, past)
               + (if rows[n].post == post then RowSum(rows, n, start, end, past) else 0.0)
    decreases past - start
  {
    if start < past {
      PostSumStep(rows, n, post, start, end, past - 1);
    }
  }

  /** A later observation's credit falls wholly on its own day. */
  lemma {:induction false} LaterRowSum(rows: seq<Obs>, k: nat, start: int, end: int, past: int, mark: real)
    requires k < |rows| && HighWater(rows, k, rows[k].post) == Some(mark) && start <= rows[k].day
    ensures RowSum(rows, k, start, end, past)
            == if rows[k].day < past then Max(rows[k].value - mark, 0.0) else 0.0
    decreases past - start
  {
    if start < past {
      LaterRowSum(rows, k, start, end, past - 1, mark);
    }
  }

  function Min(a: int, b: int): int {
    if a < b then a else b
  }

  /** How many of the days [from, last] lie before `past`. */
  function DaysBefore(from: int, last: int, past: int): nat {
    var m := Min(last + 1, past) - from;
    if m < 0 then 0 else m
  }

  lemma {:induction false} SpreadSum(rows: seq<Obs>, k: nat, start: int, end: int, past: int)
    requires k < |rows| && HighWater(rows, k, rows[k].post).None?
    requires rows[k].published.Some? && start <= rows[k].published.value <= rows[k].day <= end
    ensures RowSum(rows, k, start, end, past)
            == DaysBefore(rows[k].published.value, rows[k].day, past) as real
               * (rows[k].value / ((rows[k].day - rows[k].published.value + 1) as real))
    decreases past - start
  {
    if start < past {
      SpreadSum(rows, k, start, end, past - 1);
      var from, last := rows[k].published.value, rows[k].day;
      var share := rows[k].value / ((last - from + 1) as real);
      var m, m' := DaysBefore(from, last, past - 1), DaysBefore(from, last, past);
      assert m' == if from <= past - 1 <= last then m + 1 else m;
      assert (m + 1) as real * share == m as real * share + share;
    }
  }

  lemma {:induction false} PointSum(rows: seq<Obs>, k: nat, start: int, end: int, past: int)
    requires k < |rows| && HighWater(rows, k, rows[k].post).None? && start <= rows[k].day <= end
    requires rows[k].published.None? || rows[k].published.value > rows[k].day || rows[k].published.value < start
    ensures RowSum(rows, k, start, end, past)
            == if rows[k].day < past then rows[k].value - Anchor(rows[k], start) else 0.0
    decreases past - start
  {
    if start < past {
      PointSum(rows, k, start, end, past - 1);
    }
  }

  /** What a first observation does not credit: the whole value when the post predates the
      window, nothing otherwise. */
  function Anchor(o: Obs, start: int): real {
    if o.published.Some? && o.published.value <= o.day && o.published.value < start then o.value else 0.0
  }

  /** Once its day has passed, a first observation has been credited in full, up to the
      anchor; spreading it over several days loses nothing. */
  lemma FirstRowSum(rows: seq<Obs>, k: nat, start: int, end: int, past: int)
    requires k < |rows| && HighWater(rows, k, rows[k].post).None? && start <= rows[k].day <= end
    requires rows[k].day < past
    ensures RowSum(rows, k, start, end, past) == rows[k].value - Anchor(rows[k], start)
  {
    var o := rows[k];
    if o.published.None? || o.published.value > o.day || o.published.value < start {
      PointSum(rows, k, start, end, past);
    } else {
      SpreadSum(rows, k, start, end, past);
      var days := (o.day - o.published.value + 1) as real;
      assert days * (o.value / days) == o.value;
    }
  }

  /** The post's first row among the first `n`. */
  function FirstObs(rows: seq<Obs>, n: nat, post: int): (r: Option<Obs>)
    requires n <= |rows|
    ensures r.Some? <==> HighWater(rows, n, post).Some?
  {
    if n == 0 then None
    else
      var prior := FirstObs(rows, n - 1, post);
      if prior.Some? || rows[n - 1].post != post then prior else Some(rows[n - 1])
  }

  /** The high-water mark over the post's rows on the days before `past`. */
  function MarkBefore(rows: seq<Obs>, n: nat, post: int, past: int): Option<real>
    requires n <= |rows|
  {
    if n == 0 then None
    else
      var prior := MarkBefore(rows, n - 1, post, past);
      if rows[n - 1].post != post || rows[n - 1].day >= past then prior
      else if prior.None? then Some(rows[n - 1].value)
      else Some(Max(prior.value, rows[n - 1].value))
  }

  /** Conservation, post by post: the credits of the days up to and including D (the days
      before `past` = D + 1) add up to the post's high-water mark at D, less the anchor. D
      is any day from the post's first observation on. */
  lemma {:induction false} PostConserves(rows: seq<Obs>, n: nat, post: int, start: int, end: int, past: int)
    requires Queried(rows, start, end) && n <= |rows|
    requires FirstObs(rows, n, post).Some? ==> FirstObs(rows, n, post).value.day < past
    ensures match FirstObs(rows, n, post)
            case None => PostSum(rows, n, post, start, end, past) == 0.0
            case Some(o) =>
              && MarkBefore(rows, n, post, past).Some?
              && PostSum(rows, n, post, start, end, past) == MarkBefore(rows, n, post, past).value - Anchor(o, start)
  {
    if n == 0 {
      NothingYet(rows, post, start, end, past);
    } else {
      var k := n - 1;
      PostConserves(rows, k, post, start, end, past);
      PostSumStep(rows, k, post, start, end, past);
      if rows[k].post == post {
        match HighWater(rows, k, post) {
          case None =>
            FirstRowSum(rows, k, start, end, past);
            NoMarkBefore(rows, k, post, past);
          case Some(mark) =>
            LaterRowSum(rows, k, start, end, past, mark);
            if rows[k].day < past {
              AllBefore(rows, k, post, start, end, past);
            }
        }
      }
    }
  }

  lemma {:induction false} NothingYet(rows: seq<Obs>, post: int, start: int, end: int, past: int)
    ensures PostSum(rows, 0, post, start, end, past) == 0.0
    decreases past - start
  {
    if start < past {
      NothingYet(rows, post, start, end, past - 1);
    }
  }

  lemma {:induction false} NoMarkBefore(rows: seq<Obs>, n: nat, post: int, past: int)
    requires n <= |rows| && HighWater(rows, n, post).None?
    ensures MarkBefore(rows, n, post, past).None?
  {
    if n > 0 {
      NoMarkBefore(rows, n - 1, post, past);
    }
  }

  /** Rows of a post come day by day, so before a row of day < `past` all are of such days. */
  lemma {:induction false} AllBefore(rows: seq<Obs>, n: nat, post: int, start: int, end: int, past: int)
    requires n <= |rows|
    requires forall i :: 0 <= i < n && rows[i].post == post ==> rows[i].day < past
    ensures MarkBefore(rows, n, post, past) == HighWater(rows, n, post)
  {
    if n > 0 {
      AllBefore(rows, n - 1, post, start, end, past);
    }
  }

  /** The mark is the greatest value that the post shows before that day. */
  lemma {:induction false} MarkIsGreatest(rows: seq<Obs>, n: nat, post: int, past: int)
    requires n <= |rows|
    ensures MarkBefore(rows, n, post, past).None?
            <==> forall i :: 0 <= i < n ==> rows[i].post != post || rows[i].day >= past
    ensures MarkBefore(rows, n, post, past).Some? ==>
              var mark := MarkBefore(rows, n, post, past).value;
              && (forall i :: 0 <= i < n && rows[i].post == post && rows[i].day < past ==> rows[i].value <= mark)
              && exists i :: 0 <= i < n && rows[i].post == post && rows[i].day < past && rows[i].value == mark
  {
    if n > 0 {
      MarkIsGreatest(rows, n - 1, post, past);
    }
  }

  /** In other words: the whole window credits a post with its greatest value, less the first
      one if it was published before the window; and a post published in the window, or
      without a usable date, is credited in full. */
  lemma PostIsCredited(rows: seq<Obs>, post: int, start: int, end: int, first: nat)
    requires Queried(rows, start, end) && first < |rows| && rows[first].post == post
    requires forall i :: 0 <= i < first ==> rows[i].post != post
    ensures exists top :: 0 <= top < |rows| && rows[top].post == post
              && (forall i :: 0 <= i < |rows| && rows[i].post == post ==> rows[i].value <= rows[top].value)
              && PostSum(rows, |rows|, post, start, end, end + 1)
                 == match rows[first].published
                    case None => rows[top].value
                    case Some(published) =>
                      if published < start then rows[top].value - rows[first].value else rows[top].value
  {
    FirstObsIs(rows, |rows|, post, first);
    PostConserves(rows, |rows|, post, start, end, end + 1);
    MarkIsGreatest(rows, |rows|, post, end + 1);
    var mark := MarkBefore(rows, |rows|, post, end + 1).value;
    var top :| 0 <= top < |rows| && rows[top].post == post && rows[top].day < end + 1 && rows[top].value == mark;
  }

  lemma {:induction false} FirstObsIs(rows: seq<Obs>, n: nat, post: int, first: nat)
    requires n <= |rows| && first < |rows| && rows[first].post == post
    requires forall i :: 0 <= i < first ==> rows[i].post != post
    ensures FirstObs(rows, n, post) == if first < n then Some(rows[first]) else None
  {
    if n > 0 {
      FirstObsIs(rows, n - 1, post, first);
    }
  }

  /** A first observation of a post published in the window is spread evenly over the days
      from its publication to the observation, and reaches no other day; without a usable
      date it falls on its own day. */
  lemma FirstRowIsSpread(rows: seq<Obs>, k: nat, start: int, end: int, d: int)
    requires k < |rows| && start <= rows[k].day <= end && forall i :: 0 <= i < k ==> rows[i].post != rows[k].post
    ensures var credit := RowCredit(rows, k, start, end, d);
            match rows[k].published
            case None => credit == if d == rows[k].day then rows[k].value else 0.0
            case Some(published) =>
              if published > rows[k].day then credit == if d == rows[k].day then rows[k].value else 0.0
              else if published < start || d < published || rows[k].day < d then credit == 0.0
              else credit == RowCredit(rows, k, start, end, rows[k].day)
                   && credit * ((rows[k].day - published + 1) as real) == rows[k].value
  {
    NewPostHasNoMark(rows, k, rows[k].post);
  }

  // ---------------------------------------------------------------------
  // All posts together
  // ---------------------------------------------------------------------

  function SumOverPosts(rows: seq<Obs>, n: nat, posts: seq<int>, start: int, end: int, d: int): real
    requires n <= |rows|
  {
    if posts == [] then 0.0
    else SumOverPosts(rows, n, posts[1..], start, end, d) + PostCredit(rows, n, posts[0], start, end, d)
  }

  lemma {:induction false} OneMoreRow(rows: seq<Obs>, n: nat, posts: seq<int>, start: int, end: int, d: int)
    requires n < |rows| && Distinct(posts)
    ensures SumOverPosts(rows, n + 1, posts, start, end, d)
            == SumOverPosts(rows, n, posts, start, end, d)
               + (if rows[n].post in posts then RowCredit(rows, n, start, end, d) else 0.0)
  {
    if posts != [] {
      OneMoreRow(rows, n, posts[1..], start, end, d);
      assert posts == [posts[0]] + posts[1..];
      assert posts[0] !in posts[1..];
    }
  }

  /** A day's credit is the sum of what the posts contribute to it. */
  lemma {:induction false} DayCreditByPost(rows: seq<Obs>, n: nat, posts: seq<int>, start: int, end: int, d: int)
    requires n <= |rows| && Distinct(posts)
    requires forall i :: 0 <= i < n ==> rows[i].post in posts
    ensures DayCredit(rows, n, start, end, d) == SumOverPosts(rows, n, posts, start, end, d)
  {
    if n == 0 {
      NoRowsNoCredit(rows, posts, start, end, d);
    } else {
      DayCreditByPost(rows, n - 1, posts, start, end, d);
      OneMoreRow(rows, n - 1, posts, start, end, d);
    }
  }

  lemma {:induction false} NoRowsNoCredit(rows: seq<Obs>, posts: seq<int>, start: int, end: int, d: int)
    ensures SumOverPosts(rows, 0, posts, start, end, d) == 0.0
  {
    if posts != [] {
      NoRowsNoCredit(rows, posts[1..], start, end, d);
    }
  }

  /** Days [start, past) of the returned dictionary summed. */
  function Total(out: map<int, real>, start: int, past: int): real
    decreases past - start
  {
    if past <= start then 0.0 else Total(out, start, past - 1) + At(out, past - 1)
  }

  /** The growth of all posts: maximum less anchor. */
  function Growth(rows: seq<Obs>, posts: seq<int>, start: int): real {
    if posts == [] then 0.0
    else
      Growth(rows, posts[1..], start)
      + (match FirstObs(rows, |rows|, posts[0])
         case None => 0.0
         case Some(o) => HighWater(rows, |rows|, posts[0]).value - Anchor(o, start))
  }

  function SumOfPostSums(rows: seq<Obs>, posts: seq<int>, start: int, end: int, past: int): real {
    if posts == [] then 0.0
    else SumOfPostSums(rows, posts[1..], start, end, past) + PostSum(rows, |rows|, posts[0], start, end, past)
  }

  /** Summing by day and then by post is summing by post and then by day. */
  lemma {:induction false} ExchangeStep(rows: seq<Obs>, posts: seq<int>, start: int, end: int, past: int)
    requires start < past
    ensures SumOfPostSums(rows, posts, start, end, past)
            == SumOfPostSums(rows, posts, start, end, past - 1) + SumOverPosts(rows, |rows|, posts, start, end, past - 1)
  {
    if posts != [] {
      ExchangeStep(rows, posts[1..], start, end, past);
    }
  }

  lemma {:induction false} NoDaysNoSum(rows: seq<Obs>, posts: seq<int>, start: int, end: int, past: int)
    requires past <= start
    ensures SumOfPostSums(rows, posts, start, end, past) == 0.0
  {
    if posts != [] {
      NoDaysNoSum(rows, posts[1..], start, end, past);
    }
  }

  lemma {:induction false} TotalByPost(rows: seq<Obs>, posts: seq<int>, out: map<int, real>,
                                       start: int, end: int, past: int)
    requires Distinct(posts) && forall i :: 0 <= i < |rows| ==> rows[i].post in posts
    requires forall d :: At(out, d) == DayCredit(rows, |rows|, start, end, d)
    ensures Total(out, start, past) == SumOfPostSums(rows, posts, start, end, past)
    decreases past - start
  {
    if start < past {
      TotalByPost(rows, posts, out, start, end, past - 1);
      ExchangeStep(rows, posts, start, end, past);
      DayCreditByPost(rows, |rows|, posts, start, end, past - 1);
    } else {
      NoDaysNoSum(rows, posts, start, end, past);
    }
  }

  lemma {:induction false} PostSumsAreGrowth(rows: seq<Obs>, posts: seq<int>, start: int, end: int)
    requires Queried(rows, start, end)
    ensures SumOfPostSums(rows, posts, start, end, end + 1) == Growth(rows, posts, start)
  {
    if posts != [] {
      PostSumsAreGrowth(rows, posts[1..], start, end);
      var p := posts[0];
      FirstObsInWindow(rows, |rows|, p, start, end);
      PostConserves(rows, |rows|, p, start, end, end + 1);
      AllBefore(rows, |rows|, p, start, end, end + 1);
    }
  }

  lemma {:induction false} FirstObsInWindow(rows: seq<Obs>, n: nat, post: int, start: int, end: int)
    requires Queried(rows, start, end) && n <= |rows|
    ensures FirstObs(rows, n, post).Some? ==> start <= FirstObs(rows, n, post).value.day <= end
  {
    if n > 0 {
      FirstObsInWindow(rows, n - 1, post, start, end);
    }
  }

  /** Conservation overall: whatever dictionary the loop returns, its entries add up to the
      sum over the posts of maximum less anchor. Resets and recoveries neither lose nor
      add anything. */
  lemma GrandTotal(rows: seq<Obs>, posts: seq<int>, out: map<int, real>, start: int, end: int)
    requires Queried(rows, start, end)
    requires Distinct(posts) && forall i :: 0 <= i < |rows| ==> rows[i].post in posts
    requires forall d :: At(out, d) == DayCredit(rows, |rows|, start, end, d)
    ensures Total(out, start, end + 1) == Growth(rows, posts, start)
  {
    TotalByPost(rows, posts, out, start, end, end + 1);
    PostSumsAreGrowth(rows, posts, start, end);
  }

  // ---------------------------------------------------------------------
  // The chart series
  // ---------------------------------------------------------------------

  /** The `2 * days` values ending at `end`, missing days as 0.0; the per-post series stands
      in when the account has no rows of its own and the metric can be summed over posts. */
  method SeriesFor(account: map<int, real>, supportsFallback: bool, rows: seq<Obs>, end: int, days: nat)
    returns (out: seq<real>)
    requires Queried(rows, end - (2 * days - 1), end)
    ensures |out| == 2 * days
    ensures account != map[] || !supportsFallback ==>
              forall i :: 0 <= i < 2 * days ==> out[i] == At(account, end - (2 * days - 1) + i)
    ensures account == map[] && supportsFallback ==>
              var start := end - (2 * days - 1);
              forall i :: 0 <= i < 2 * days ==> out[i] == DayCredit(rows, |rows|, start, end, start + i)
    ensures account == map[] && supportsFallback ==>
              forall posts :: Distinct(posts) && (forall i :: 0 <= i < |rows| ==> rows[i].post in posts) ==>
                SeqSum(out) == Growth(rows, posts, end - (2 * days - 1))
  {
    var start := end - (2 * days - 1);
    var byDay := account;
    if byDay == map[] && supportsFallback {
      var fallback, captured := PostSummedSeries(rows, start, end);
      byDay := byDay + fallback;
    }
    out := [];
    var i := 0;
    while i < 2 * days
      invariant 0 <= i == |out| <= 2 * days
      invariant forall j :: 0 <= j < i ==> out[j] == At(byDay, start + j)
      invariant SeqSum(out) == Total(byDay, start, start + i)
    {
      assert (out + [At(byDay, start + i)])[..i] == out;
      out := out + [At(byDay, start + i)];
      i := i + 1;
    }
    forall posts | account == map[] && supportsFallback && Distinct(posts)
                   && forall i :: 0 <= i < |rows| ==> rows[i].post in posts
      ensures SeqSum(out) == Growth(rows, posts, start)
    {
      GrandTotal(rows, posts, byDay, start, end);
    }
  }
}
