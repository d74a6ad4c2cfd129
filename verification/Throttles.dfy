/** Two counters with a lifetime, per client address and handled one request at a time
    (apps/api/limits.py, apps/api/auth.py, apps/accounts/middleware.py). */
module Throttles {
  import opened Common

  const LIMIT := 10
  const WINDOW := 60

  /** A cached counter; it can be read strictly before it expires. */
  datatype Counter = Counter(count: int, expires: int)

  predicate Live(c: Option<Counter>, now: int) {
    c.Some? && now < c.value.expires
  }

  function CountAt(c: Option<Counter>, now: int): int {
    if Live(c, now) then c.value.count else 0
  }

  /** A failure: the window stays anchored at the first one. */
  function Recorded(c: Option<Counter>, now: int): Option<Counter> {
    if Live(c, now) then Some(Counter(c.value.count + 1, c.value.expires)) else Some(Counter(1, now + WINDOW))
  }

  /** An admitted attempt: the window is refreshed every time. */
  function Refreshed(c: Option<Counter>, now: int): Option<Counter> {
    Some(Counter(CountAt(c, now) + 1, now + WINDOW))
  }

  class FailedAuthThrottle {
    var counter: Option<Counter>

    constructor ()
      ensures counter == None
    {
      counter := None;
    }

    method IsBlocked(now: int) returns (b: bool)
      ensures b == (CountAt(counter, now) >= LIMIT)
    {
      b := CountAt(counter, now) >= LIMIT;
    }

    method RecordFailedAuth(now: int)
      modifies this
      ensures counter == Recorded(old(counter), now)
    {
      if Live(counter, now) {
        counter := Some(counter.value.(count := counter.value.count + 1));
      } else {
        counter := Some(Counter(1, now + WINDOW));
      }
    }

    /** The order of checks: throttle, transport, credential. */
    method Authenticate(now: int, secure: bool, valid: bool) returns (accepted: bool)
      modifies this
      ensures accepted == (CountAt(old(counter), now) < LIMIT && secure && valid)
      ensures counter == if Fails(old(counter), Request(now, secure, valid)) then Recorded(old(counter), now)
                         else old(counter)
    {
      var blocked := IsBlocked(now);
      if blocked {
        return false;
      }
      if !secure {
        RecordFailedAuth(now);
        return false;
      }
      if !valid {
        RecordFailedAuth(now);
        return false;
      }
      return true;
    }
  }

  class AuthRateLimit {
    var counter: Option<Counter>

    constructor ()
      ensures counter == None
    {
      counter := None;
    }

    method Call(now: int, limited: bool) returns (admitted: bool)
      modifies this
      ensures admitted == (limited ==> CountAt(old(counter), now) < LIMIT)
      ensures counter == if limited && admitted then Refreshed(old(counter), now) else old(counter)
    {
      if limited {
        var attempts := CountAt(counter, now);
        if attempts >= LIMIT {
          return false;
        }
        counter := Some(Counter(attempts + 1, now + WINDOW));
      }
      return true;
    }
  }

  // ---------------------------------------------------------------------
  // Traces
  // ---------------------------------------------------------------------

  datatype Request = Request(now: int, secure: bool, valid: bool)

  /** A request that is let through to a check it does not pass. */
  predicate Fails(c: Option<Counter>, r: Request) {
    CountAt(c, r.now) < LIMIT && !(r.secure && r.valid)
  }

  ghost predicate InOrder(times: seq<int>) {
    forall i, j :: 0 <= i < j < |times| ==> times[i] <= times[j]
  }

  /** A recorded event, its number within its window, and where that window began. */
  datatype Mark = Mark(time: int, number: int, anchor: int)

  /** The recorded failures of a trace of requests. */
  function FailureMarks(c: Option<Counter>, rs: seq<Request>): seq<Mark>
    decreases |rs|
  {
    if rs == [] then []
    else if Fails(c, rs[0]) then
      var c' := Recorded(c, rs[0].now);
      [Mark(rs[0].now, c'.value.count, c'.value.expires - WINDOW)] + FailureMarks(c', rs[1..])
    else FailureMarks(c, rs[1..])
  }

  /** The admitted attempts of a trace of times. */
  function AdmittedMarks(c: Option<Counter>, nows: seq<int>): seq<Mark>
    decreases |nows|
  {
    if nows == [] then []
    else if CountAt(c, nows[0]) < LIMIT then
      var c' := Refreshed(c, nows[0]);
      [Mark(nows[0], c'.value.count, nows[0])] + AdmittedMarks(c', nows[1..])
    else AdmittedMarks(c, nows[1..])
  }

  function Times(ms: seq<Mark>): (r: seq<int>)
    ensures |r| == |ms| && forall i :: 0 <= i < |r| ==> r[i] == ms[i].time
  {
    seq(|ms|, i requires 0 <= i < |ms| => ms[i].time)
  }

  /** The events that fall into the half-open minute from `t`. */
  function InWindow(times: seq<int>, t: int): set<int> {
    set k | 0 <= k < |times| && t <= times[k] < t + 60
  }

  function Range(from: int, n: nat): set<int> {
    if n == 0 then {} else Range(from, n - 1) + {from + n - 1}
  }

  lemma {:induction false} RangeFacts(from: int, n: nat)
    ensures |Range(from, n)| == n && forall k :: k in Range(from, n) <==> from <= k < from + n
  {
    if n > 0 {
      RangeFacts(from, n - 1);
    }
  }

  /** If any n + 1 consecutive events span a whole window, no window holds more than n. */
  lemma SpreadEvents(times: seq<int>, n: nat, t: int)
    requires forall k, j :: 0 <= k && k + n <= j < |times| ==> times[j] - times[k] >= WINDOW
    ensures |InWindow(times, t)| <= n
  {
    var s := InWindow(times, t);
    if s != {} {
      var first := LeastIn(s);
      RangeFacts(first, n);
      forall k | k in s ensures k in Range(first, n) {
        assert first <= k && times[k] - times[first] < WINDOW;
      }
      SubsetSize(s, Range(first, n));
    }
  }

  lemma {:induction false} LeastIn(s: set<int>) returns (m: int)
    requires s != {}
    ensures m in s && forall x :: x in s ==> m <= x
  {
    m := Member(s);
    if s != {m} {
      var rest := LeastIn(s - {m});
      assert forall x :: x in s ==> x == m || x in s - {m};
      if rest < m {
        m := rest;
      }
    }
  }

  // ---------------------------------------------------------------------
  // The anchored window
  // ---------------------------------------------------------------------

  /** How consecutive recorded failures are related. */
  ghost predicate Follows(prev: Mark, next: Mark) {
    && prev.time <= next.time
    && (if next.number == 1 then next.anchor == next.time && prev.anchor + WINDOW <= next.time
        else next.number == prev.number + 1 && next.anchor == prev.anchor)
  }

  ghost predicate Anchored(ms: seq<Mark>) {
    && (forall k :: 0 <= k < |ms| ==> 1 <= ms[k].number <= LIMIT && ms[k].anchor <= ms[k].time)
    && (forall k :: 0 <= k < |ms| && ms[k].number == 1 ==> ms[k].anchor == ms[k].time)
    && (forall k, j :: 0 <= k && j == k + 1 && j < |ms| ==> Follows(ms[k], ms[j]))
  }

  lemma {:induction false} FailuresAreAnchored(c: Option<Counter>, rs: seq<Request>)
    requires forall i, j :: 0 <= i < j < |rs| ==> rs[i].now <= rs[j].now
    requires c.Some? ==> 1 <= c.value.count <= LIMIT && forall i :: 0 <= i < |rs| ==> c.value.expires - WINDOW <= rs[i].now
    ensures var ms := FailureMarks(c, rs);
            && Anchored(ms)
            && (ms != [] ==> rs != [] && rs[0].now <= ms[0].time)
            && (ms != [] && c.None? ==> ms[0].number == 1)
            && (ms != [] && c.Some? ==> if ms[0].number == 1 then c.value.expires <= ms[0].time
                                        else ms[0].number == c.value.count + 1 && ms[0].anchor == c.value.expires - WINDOW)
    decreases |rs|
  {
    if rs != [] {
      assert forall i :: 0 <= i < |rs| - 1 ==> rs[1..][i] == rs[i + 1];
      if Fails(c, rs[0]) {
        var c' := Recorded(c, rs[0].now);
        FailuresAreAnchored(c', rs[1..]);
        var rest := FailureMarks(c', rs[1..]);
        var first := Mark(rs[0].now, c'.value.count, c'.value.expires - WINDOW);
        ConsAnchored(first, rest);
      } else {
        FailuresAreAnchored(c, rs[1..]);
      }
    }
  }

  lemma ConsAnchored(first: Mark, rest: seq<Mark>)
    requires Anchored(rest) && 1 <= first.number <= LIMIT && first.anchor <= first.time
    requires first.number == 1 ==> first.anchor == first.time
    requires rest != [] ==> Follows(first, rest[0])
    ensures Anchored([first] + rest)
  {
    var ms := [first] + rest;
    forall k, j | 0 <= k && j == k + 1 && j < |ms| ensures Follows(ms[k], ms[j]) {
      if k > 0 {
        assert ms[k] == rest[k - 1] && ms[j] == rest[j - 1];
      }
    }
  }

  lemma {:induction false} AnchoredInOrder(ms: seq<Mark>, i: int, j: int)
    requires Anchored(ms) && 0 <= i <= j < |ms|
    ensures ms[i].time <= ms[j].time
    decreases j - i
  {
    if i < j {
      AnchoredInOrder(ms, i, j - 1);
      assert Follows(ms[j - 1], ms[j]);
    }
  }

  /** Each window's first failure is `number - 1` places back. */
  lemma {:induction false} WindowStart(ms: seq<Mark>, k: int) returns (s: int)
    requires Anchored(ms) && 0 <= k < |ms| && ms[0].number == 1
    ensures s == k - (ms[k].number - 1) && 0 <= s <= k
    ensures ms[s].number == 1 && ms[s].anchor == ms[k].anchor && ms[s].time == ms[k].anchor
    decreases k
  {
    if ms[k].number == 1 {
      s := k;
    } else {
      assert Follows(ms[k - 1], ms[k]);
      s := WindowStart(ms, k - 1);
    }
  }

  /** Any 20 consecutive recorded failures span at least a minute. */
  lemma TwentyFailuresSpread(ms: seq<Mark>, i: int, j: int)
    requires Anchored(ms) && 0 <= i && i + 19 <= j < |ms| && ms[0].number == 1
    ensures ms[j].time - ms[i].time >= WINDOW
  {
    var s := WindowStart(ms, j);
    assert Follows(ms[s - 1], ms[s]);
    var r := WindowStart(ms, s - 1);
    AnchoredInOrder(ms, i, r);
    AnchoredInOrder(ms, s, j);
  }

  /** No half-open minute sees more than 19 recorded failures, and the counter never exceeds
      its limit of 10. */
  lemma FailuresPerMinute(rs: seq<Request>, t: int)
    requires forall i, j :: 0 <= i < j < |rs| ==> rs[i].now <= rs[j].now
    ensures var ms := FailureMarks(None, rs);
            && (forall k :: 0 <= k < |ms| ==> 1 <= ms[k].number <= LIMIT)
            && |InWindow(Times(ms), t)| <= 19
  {
    var ms := FailureMarks(None, rs);
    FailuresAreAnchored(None, rs);
    if ms != [] {
      forall i, j | 0 <= i < j < |ms| ensures Times(ms)[i] <= Times(ms)[j] {
        AnchoredInOrder(ms, i, j);
      }
      forall i, j | 0 <= i && i + 19 <= j < |ms| ensures Times(ms)[j] - Times(ms)[i] >= WINDOW {
        TwentyFailuresSpread(ms, i, j);
      }
    }
    SpreadEvents(Times(ms), 19, t);
  }

  // ---------------------------------------------------------------------
  // The refreshed window
  // ---------------------------------------------------------------------

  /** Consecutive admitted attempts: within a minute the count goes on, after that it
      starts over. */
  ghost predicate Continues(prev: Mark, next: Mark) {
    && prev.time <= next.time
    && (if next.time - prev.time < WINDOW then next.number == prev.number + 1 else next.number == 1)
  }

  ghost predicate Chained(ms: seq<Mark>) {
    && (forall k :: 0 <= k < |ms| ==> 1 <= ms[k].number <= LIMIT)
    && (forall k, j :: 0 <= k && j == k + 1 && j < |ms| ==> Continues(ms[k], ms[j]))
  }

  lemma {:induction false} AdmissionsAreChained(c: Option<Counter>, nows: seq<int>)
    requires InOrder(nows)
    requires c.Some? ==> 1 <= c.value.count <= LIMIT && forall i :: 0 <= i < |nows| ==> c.value.expires - WINDOW <= nows[i]
    ensures var ms := AdmittedMarks(c, nows);
            && Chained(ms)
            && (ms != [] && c.Some? ==> Continues(Mark(c.value.expires - WINDOW, c.value.count, 0), ms[0]))
    decreases |nows|
  {
    if nows != [] {
      assert forall i :: 0 <= i < |nows| - 1 ==> nows[1..][i] == nows[i + 1];
      if CountAt(c, nows[0]) < LIMIT {
        var c' := Refreshed(c, nows[0]);
        AdmissionsAreChained(c', nows[1..]);
        ConsChained(Mark(nows[0], c'.value.count, nows[0]), AdmittedMarks(c', nows[1..]));
      } else {
        AdmissionsAreChained(c, nows[1..]);
      }
    }
  }

  lemma ConsChained(first: Mark, rest: seq<Mark>)
    requires Chained(rest) && 1 <= first.number <= LIMIT
    requires rest != [] ==> Continues(first, rest[0])
    ensures Chained([first] + rest)
  {
    var ms := [first] + rest;
    forall k, j | 0 <= k && j == k + 1 && j < |ms| ensures Continues(ms[k], ms[j]) {
      if k > 0 {
        assert ms[k] == rest[k - 1] && ms[j] == rest[j - 1];
      }
    }
  }

  /** Attempts less than a minute apart from the first on are all counted. */
  lemma {:induction false} CountGoesOn(ms: seq<Mark>, i: int, j: int)
    requires Chained(ms) && 0 <= i <= j < |ms|
    ensures ms[i].time <= ms[j].time
    ensures ms[j].time - ms[i].time < WINDOW ==> ms[j].number == ms[i].number + (j - i)
    decreases j - i
  {
    if i < j {
      CountGoesOn(ms, i, j - 1);
      assert Continues(ms[j - 1], ms[j]);
    }
  }

  /** No half-open minute sees more than 10 admitted attempts. */
  lemma AdmissionsPerMinute(nows: seq<int>, t: int)
    requires InOrder(nows)
    ensures |InWindow(Times(AdmittedMarks(None, nows)), t)| <= 10
  {
    var ms := AdmittedMarks(None, nows);
    AdmissionsAreChained(None, nows);
    forall i, j | 0 <= i < j < |ms| ensures Times(ms)[i] <= Times(ms)[j] {
      CountGoesOn(ms, i, j);
    }
    forall i, j | 0 <= i && i + LIMIT <= j < |ms| ensures Times(ms)[j] - Times(ms)[i] >= WINDOW {
      CountGoesOn(ms, i, j);
    }
    SpreadEvents(Times(ms), LIMIT, t);
  }

  // ---------------------------------------------------------------------
  // The bounds are reached
  // ---------------------------------------------------------------------

  /** `n` failing requests at one moment. */
  function Burst(now: int, n: nat): seq<Request> {
    if n == 0 then [] else [Request(now, true, false)] + Burst(now, n - 1)
  }

  lemma {:induction false} BurstMarks(c: Counter, now: int, n: nat, rest: seq<Request>)
    requires now < c.expires && c.count + n <= LIMIT
    ensures var ms := FailureMarks(Some(c), Burst(now, n) + rest);
            && n <= |ms| && ms[n..] == FailureMarks(Some(Counter(c.count + n, c.expires)), rest)
            && forall i :: 0 <= i < n ==> ms[i].time == now
    decreases n
  {
    var rs := Burst(now, n) + rest;
    if n == 0 {
      assert rs == rest;
    } else {
      var next := Counter(c.count + 1, c.expires);
      assert rs[0] == Request(now, true, false) && rs[1..] == Burst(now, n - 1) + rest;
      BurstMarks(next, now, n - 1, rest);
      var tail := FailureMarks(Some(next), rs[1..]);
      var ms := FailureMarks(Some(c), rs);
      assert ms == [Mark(now, c.count + 1, c.expires - WINDOW)] + tail;
      assert ms[n..] == tail[n - 1..];
      forall i | 0 <= i < n ensures ms[i].time == now {
        assert i > 0 ==> ms[i] == tail[i - 1];
      }
    }
  }

  /** The second minute of the worst case: ten failures at once. */
  lemma TenMore(b: Counter, one: nat, nine: nat)
    requires one == 1 && nine == 9 && b.expires <= WINDOW
    ensures var ms := FailureMarks(Some(b), Burst(WINDOW, one) + Burst(WINDOW, nine));
            |ms| >= 10 && forall i :: 0 <= i < 10 ==> ms[i].time == WINDOW
  {
    var last := Burst(WINDOW, nine);
    var rs := Burst(WINDOW, one) + last;
    assert rs[0] == Request(WINDOW, true, false) && rs[1..] == last;
    var d := Counter(1, 2 * WINDOW);
    assert FailureMarks(Some(b), rs) == [Mark(WINDOW, 1, WINDOW)] + FailureMarks(Some(d), last);
    BurstMarks(d, WINDOW, nine, []);
    assert last + [] == last;
  }

  /** One failure, nine more just before the window closes, ten at once after it. */
  function WorstMinute(one: nat, nine: nat): seq<Request> {
    Burst(0, one) + (Burst(WINDOW - 1, nine) + (Burst(WINDOW, one) + Burst(WINDOW, nine)))
  }

  ghost predicate Nineteen(rs: seq<Request>) {
    && (forall i, j :: 0 <= i < j < |rs| ==> rs[i].now <= rs[j].now)
    && exists t :: |InWindow(Times(FailureMarks(None, rs)), t)| >= 19
  }

  /** Some requests, in the order of time, leave nineteen recorded failures within a minute. */
  lemma NineteenFailures()
    ensures exists rs :: Nineteen(rs)
  {
    WorstMinuteIsReached(1, 9);
    WorstMinuteInOrder(1, 9);
    assert Nineteen(WorstMinute(1, 9));
  }

  lemma {:induction false} BurstAt(now: int, n: nat)
    ensures |Burst(now, n)| == n && forall i :: 0 <= i < n ==> Burst(now, n)[i].now == now
  {
    if n > 0 {
      BurstAt(now, n - 1);
    }
  }

  lemma WorstMinuteInOrder(one: nat, nine: nat)
    ensures var rs := WorstMinute(one, nine); forall i, j :: 0 <= i < j < |rs| ==> rs[i].now <= rs[j].now
  {
    BurstAt(0, one);
    BurstAt(WINDOW - 1, nine);
    BurstAt(WINDOW, one);
    BurstAt(WINDOW, nine);
  }

  lemma WorstMinuteIsReached(one: nat, nine: nat)
    requires one == 1 && nine == 9
    ensures |InWindow(Times(FailureMarks(None, WorstMinute(one, nine))), WINDOW - 1)| >= 19
  {
    var third := Burst(WINDOW, one) + Burst(WINDOW, nine);
    var second := Burst(WINDOW - 1, nine) + third;
    var rs := WorstMinute(one, nine);
    assert rs[0] == Request(0, true, false) && rs[1..] == second;
    BurstMarks(Counter(1, WINDOW), WINDOW - 1, nine, third);
    TenMore(Counter(10, WINDOW), one, nine);
    var afterOne := FailureMarks(Some(Counter(1, WINDOW)), second);
    assert FailureMarks(None, rs) == [Mark(0, 1, 0)] + afterOne;
    NineteenInWindow(Times(FailureMarks(None, rs)), Times(afterOne), nine);
  }

  lemma NineteenInWindow(times: seq<int>, rest: seq<int>, nine: nat)
    requires nine == 9 && |rest| >= 19 && times == [0] + rest
    requires forall i :: 0 <= i < nine ==> rest[i] == WINDOW - 1
    requires forall i :: 0 <= i < 10 ==> rest[nine..][i] == WINDOW
    ensures |InWindow(times, WINDOW - 1)| >= 19
  {
    RangeFacts(1, 19);
    forall k | k in Range(1, 19) ensures k in InWindow(times, WINDOW - 1) {
      assert times[k] == rest[k - 1];
      if k >= 10 {
        assert rest[k - 1] == rest[nine..][k - 10];
      }
    }
    SubsetSize(Range(1, 19), InWindow(times, WINDOW - 1));
  }

  /** `n` attempts at one moment. */
  function Attempts(now: int, n: nat): seq<int> {
    if n == 0 then [] else [now] + Attempts(now, n - 1)
  }

  lemma {:induction false} AttemptsAt(now: int, n: nat)
    ensures |Attempts(now, n)| == n && forall i :: 0 <= i < n ==> Attempts(now, n)[i] == now
  {
    if n > 0 {
      AttemptsAt(now, n - 1);
    }
  }

  lemma {:induction false} AllAdmitted(c: Option<Counter>, now: int, n: nat)
    requires CountAt(c, now) + n <= LIMIT
    ensures var ms := AdmittedMarks(c, Attempts(now, n));
            |ms| == n && forall i :: 0 <= i < n ==> ms[i].time == now
    decreases n
  {
    if n > 0 {
      assert Attempts(now, n)[1..] == Attempts(now, n - 1);
      AllAdmitted(Refreshed(c, now), now, n - 1);
    }
  }

  ghost predicate Ten(nows: seq<int>) {
    InOrder(nows) && exists t :: |InWindow(Times(AdmittedMarks(None, nows)), t)| >= 10
  }

  lemma AttemptsInWindow(n: nat)
    requires n <= LIMIT
    ensures InOrder(Attempts(0, n)) && |InWindow(Times(AdmittedMarks(None, Attempts(0, n))), 0)| >= n
  {
    AttemptsAt(0, n);
    AllAdmitted(None, 0, n);
    var times := Times(AdmittedMarks(None, Attempts(0, n)));
    RangeFacts(0, n);
    forall k | k in Range(0, n) ensures k in InWindow(times, 0) {
    }
    SubsetSize(Range(0, n), InWindow(times, 0));
  }

  /** Some attempts, in the order of time, are admitted ten times within a minute. */
  lemma TenAdmissions()
    ensures exists nows :: Ten(nows)
  {
    AttemptsInWindow(LIMIT);
    assert Ten(Attempts(0, LIMIT));
  }
}
