/** The key cache with its statements interleaved: a change and its signal are two steps, and
    a request reads the cache, reads the database, fills the cache and decides in four
    (apps/api_keys/services.py, apps/api_keys/signals.py). */
module KeyCacheRaces {
  import opened Common
  import opened ApiKeys

  type RequestId = int

  /** A row as some request found it in the database: which version, read at which step. */
  datatype Read = Read(l: Lookup, row: KeyRow, version: int, readAt: int)

  datatype Fill = Fill(read: Read, filledAt: int)

  /** A cache hit: when the entry was filled, and when it was got. */
  datatype Hit = Hit(filledAt: int, gotAt: int)

  /** How far a request is: it has missed the cache, has read the row, or is about to decide
      on a row that it read itself or got from the cache. */
  datatype Phase =
    | Missed(missed: Lookup)
    | Fetched(fetched: Read)
    | Ready(read: Read, hit: Option<Hit>)

  /** A request let through: on which row, when, at which step, and who was a member then. */
  datatype Acceptance = Acceptance(
    read: Read, hit: Option<Hit>, time: int, decidedAt: int, members: set<(User, Workspace)>)

  /** `step` counts steps and orders them; `now` is the clock. `supersededAt[l, v]` is the
      step that replaced version v. */
  datatype Race = Race(
    rows: map<Lookup, KeyRow>,
    version: map<Lookup, int>,
    supersededAt: map<(Lookup, int), int>,
    members: set<(User, Workspace)>,
    cache: map<Lookup, Fill>,
    requests: map<RequestId, Phase>,
    accepted: seq<Acceptance>,
    step: int,
    now: int)

  datatype Step =
    | Write(l: Lookup, row: KeyRow)
    | Bust(l: Lookup)
    | Get(r: RequestId, l: Lookup)
    | Fetch(r: RequestId)
    | FillCache(r: RequestId)
    | Decide(r: RequestId)
    | SetMembers(members: set<(User, Workspace)>)
    | Tick(now: int)

  predicate Enabled(s: Race, e: Step) {
    match e
    case Write(l, _) => l in s.rows && l in s.version
    case Bust(_) => true
    case Get(_, _) => true
    case Fetch(r) =>
      r in s.requests && s.requests[r].Missed? && (s.requests[r].missed in s.rows ==> s.requests[r].missed in s.version)
    case FillCache(r) => r in s.requests && s.requests[r].Fetched?
    case Decide(r) => r in s.requests && s.requests[r].Ready?
    case SetMembers(_) => true
    case Tick(now) => s.now <= now
  }

  predicate Readable(s: Race, l: Lookup) {
    l in s.cache && s.now < s.cache[l].filledAt + CACHE_TTL
  }

  predicate Accepts(s: Race, row: KeyRow) {
    IsActive(row, s.now) && IssuerAuthorized(s.members, row)
  }

  function Next(s0: Race, e: Step): Race
    requires Enabled(s0, e)
  {
    var s := s0.(step := s0.step + 1);
    match e
    case Write(l, row) =>
      s.(rows := s.rows[l := row],
         version := s.version[l := s.version[l] + 1],
         supersededAt := s.supersededAt[(l, s.version[l]) := s.step])
    case Bust(l) => s.(cache := s.cache - {l})
    case Get(r, l) =>
      s.(requests := s.requests[r := if Readable(s, l)
                                     then Ready(s.cache[l].read, Some(Hit(s.cache[l].filledAt, s.now)))
                                     else Missed(l)])
    case Fetch(r) =>
      var l := s.requests[r].missed;
      if l in s.rows then s.(requests := s.requests[r := Fetched(Read(l, s.rows[l], s.version[l], s.step))])
      else s.(requests := s.requests - {r})
    case FillCache(r) =>
      var read := s.requests[r].fetched;
      s.(requests := s.requests[r := Ready(read, None)],
         cache := if IsActive(read.row, s.now) then s.cache[read.l := Fill(read, s.now)] else s.cache)
    case Decide(r) =>
      var read := s.requests[r].read;
      var done := s.(requests := s.requests - {r});
      if Accepts(s, read.row)
      then done.(accepted := s.accepted + [Acceptance(read, s.requests[r].hit, s.now, s.step, s.members)])
      else done.(cache := s.cache - {read.l})
    case SetMembers(members) => s.(members := members)
    case Tick(now) => s.(now := now)
  }

  ghost predicate EnabledRun(s: Race, run: seq<Step>)
    decreases |run|
  {
    run != [] ==> Enabled(s, run[0]) && EnabledRun(Next(s, run[0]), run[1..])
  }

  function Run(s: Race, run: seq<Step>): Race
    requires EnabledRun(s, run)
    decreases |run|
  {
    if run == [] then s else Run(Next(s, run[0]), run[1..])
  }

  // ---------------------------------------------------------------------
  // What is accepted
  // ---------------------------------------------------------------------

  /** A read shows the current row, or one that was replaced after the read. */
  ghost predicate Explained(s: Race, read: Read) {
    && read.l in s.rows && read.l in s.version
    && read.version <= s.version[read.l] && read.readAt <= s.step
    && (read.version == s.version[read.l] ==> read.row == s.rows[read.l])
    && (read.version < s.version[read.l] ==>
          (read.l, read.version) in s.supersededAt && read.readAt < s.supersededAt[(read.l, read.version)] <= s.step)
  }

  ghost predicate HitInTime(hit: Option<Hit>, time: int) {
    hit.Some? ==> hit.value.filledAt <= hit.value.gotAt < hit.value.filledAt + CACHE_TTL && hit.value.gotAt <= time
  }

  ghost predicate CacheExplained(s: Race) {
    forall l :: l in s.cache ==>
      && s.cache[l].read.l == l && Explained(s, s.cache[l].read) && s.cache[l].filledAt <= s.now
      && s.cache[l].read.row.revokedAt.None?
  }

  ghost predicate RequestsExplained(s: Race) {
    forall r :: r in s.requests ==>
      match s.requests[r]
      case Missed(_) => true
      case Fetched(read) => Explained(s, read)
      case Ready(read, hit) => Explained(s, read) && HitInTime(hit, s.now)
  }

  /** The row was the current one when it was accepted, or replaced after it had been read. */
  ghost predicate Justified(s: Race, a: Acceptance) {
    && Explained(s, a.read) && HitInTime(a.hit, a.time)
    && IsActive(a.read.row, a.time) && IssuerAuthorized(a.members, a.read.row)
    && a.read.readAt <= a.decidedAt <= s.step
  }

  ghost predicate AllJustified(s: Race) {
    forall i :: 0 <= i < |s.accepted| ==> Justified(s, s.accepted[i])
  }

  ghost predicate Inv(s: Race) {
    CacheExplained(s) && RequestsExplained(s) && AllJustified(s)
  }

  lemma StaysExplained(s: Race, e: Step, read: Read)
    requires Enabled(s, e) && Explained(s, read)
    ensures Explained(Next(s, e), read)
  {
  }

  lemma CacheStaysExplained(s: Race, e: Step)
    requires Inv(s) && Enabled(s, e)
    ensures CacheExplained(Next(s, e))
  {
    forall read | Explained(s, read) ensures Explained(Next(s, e), read) {
      StaysExplained(s, e, read);
    }
  }

  lemma RequestsStayExplained(s: Race, e: Step)
    requires Inv(s) && Enabled(s, e)
    ensures RequestsExplained(Next(s, e))
  {
    forall read | Explained(s, read) ensures Explained(Next(s, e), read) {
      StaysExplained(s, e, read);
    }
  }

  lemma AcceptancesStayJustified(s: Race, e: Step)
    requires Inv(s) && Enabled(s, e)
    ensures AllJustified(Next(s, e))
  {
    var s' := Next(s, e);
    forall i | 0 <= i < |s'.accepted| ensures Justified(s', s'.accepted[i]) {
      StaysExplained(s, e, s'.accepted[i].read);
    }
  }

  lemma StepKeeps(s: Race, e: Step)
    requires Inv(s) && Enabled(s, e)
    ensures Inv(Next(s, e))
  {
    CacheStaysExplained(s, e);
    RequestsStayExplained(s, e);
    AcceptancesStayJustified(s, e);
  }

  lemma {:induction false} RunKeeps(s: Race, run: seq<Step>)
    requires Inv(s) && EnabledRun(s, run)
    ensures Inv(Run(s, run))
    decreases |run|
  {
    if run != [] {
      StepKeeps(s, run[0]);
      RunKeeps(Next(s, run[0]), run[1..]);
    }
  }

  /** Over every interleaving from an idle system, of every request let through: its row was
      active and its issuer a member at that very moment; if the row had been superseded, then
      only after it was read from the database; and if it came from the cache, it was got
      there within 30 seconds of being filled in. */
  lemma StaleAcceptanceIsBounded(s: Race, run: seq<Step>, a: Acceptance)
    requires s.cache == map[] && s.requests == map[] && s.accepted == [] && EnabledRun(s, run)
    requires a in Run(s, run).accepted
    ensures var t, read := Run(s, run), a.read;
            && read.row.revokedAt.None? && (read.row.expiresAt.Some? ==> a.time < read.row.expiresAt.value)
            && read.row.issuer.Some? && (read.row.issuer.value, read.row.workspace) in a.members
            && (a.hit.Some? ==> a.hit.value.gotAt < a.hit.value.filledAt + 30 && a.hit.value.gotAt <= a.time)
            && read.l in t.rows
            && (read.row == t.rows[read.l]
                || ((read.l, read.version) in t.supersededAt && read.readAt < t.supersededAt[(read.l, read.version)]))
  {
    RunKeeps(s, run);
    var i :| 0 <= i < |Run(s, run).accepted| && Run(s, run).accepted[i] == a;
    assert Justified(Run(s, run), Run(s, run).accepted[i]);
  }

  /** Over every interleaving, what the cache holds was not revoked when it was read, and is
      the key's current row, or one that was superseded after it had been read. */
  lemma CachedRowsAreExplained(s: Race, run: seq<Step>, l: Lookup)
    requires s.cache == map[] && s.requests == map[] && s.accepted == [] && EnabledRun(s, run)
    requires l in Run(s, run).cache
    ensures var t := Run(s, run);
            var read := t.cache[l].read;
            && read.row.revokedAt.None? && l in t.rows
            && (read.row == t.rows[l]
                || ((l, read.version) in t.supersededAt && read.readAt < t.supersededAt[(l, read.version)]))
  {
    RunKeeps(s, run);
  }

  /** A refusal, for whatever reason of the row's, takes the key out of the cache, so that the
      next request for it reads the database, unless another one has filled it in again. */
  lemma RefusalEvicts(s: Race, r: RequestId, next: RequestId)
    requires r in s.requests && s.requests[r].Ready? && !Accepts(s, s.requests[r].read.row)
    ensures var l := s.requests[r].read.l;
            var t := Next(Next(s, Decide(r)), Get(next, l));
            next in t.requests && t.requests[next] == Missed(l) && t.accepted == s.accepted
  {
  }

  // ---------------------------------------------------------------------
  // When a change has settled
  // ---------------------------------------------------------------------

  ghost predicate NoWrite(run: seq<Step>, l: Lookup) {
    forall i :: 0 <= i < |run| ==> !(run[i].Write? && run[i].l == l)
  }

  /** However the system goes on, as long as the key does not change, only its current row is
      accepted. */
  ghost predicate Settled(s: Race, l: Lookup)
    requires l in s.rows
  {
    forall run :: EnabledRun(s, run) && NoWrite(run, l) ==> OnlyCurrent(Run(s, run), |s.accepted|, l, s.rows[l])
  }

  ghost predicate OnlyCurrent(s: Race, from: nat, l: Lookup, row: KeyRow) {
    forall i :: from <= i < |s.accepted| && s.accepted[i].read.l == l ==> s.accepted[i].read.row == row
  }

  /** A row that can be accepted some time, although it is not the current one. */
  predicate Harmful(s: Race, l: Lookup, row: KeyRow)
    requires l in s.rows
  {
    row != s.rows[l] && IsActive(row, s.now) && row.issuer.Some?
  }

  /** The row that a request has in hand. */
  function InHand(p: Phase): Option<Read> {
    match p
    case Missed(_) => None
    case Fetched(read) => Some(read)
    case Ready(read, _) => Some(read)
  }

  ghost predicate HarmfulRequest(s: Race, l: Lookup, r: RequestId)
    requires l in s.rows
  {
    r in s.requests && InHand(s.requests[r]).Some? && InHand(s.requests[r]).value.l == l
    && Harmful(s, l, InHand(s.requests[r]).value.row)
  }

  ghost predicate Clean(s: Race, l: Lookup)
    requires l in s.rows
  {
    && (Readable(s, l) ==> !Harmful(s, l, s.cache[l].read.row))
    && (forall r :: !HarmfulRequest(s, l, r))
  }

  /** While the key does not change, no row becomes harmful. */
  lemma HarmFades(s: Race, e: Step, l: Lookup)
    requires l in s.rows && Enabled(s, e) && !(e.Write? && e.l == l)
    ensures l in Next(s, e).rows && Next(s, e).rows[l] == s.rows[l]
    ensures forall row :: Harmful(Next(s, e), l, row) ==> Harmful(s, l, row)
  {
  }

  lemma CacheStaysClean(s: Race, e: Step, l: Lookup)
    requires CacheExplained(s) && l in s.rows && Enabled(s, e) && !(e.Write? && e.l == l) && Clean(s, l)
    ensures Readable(Next(s, e), l) ==> !Harmful(Next(s, e), l, Next(s, e).cache[l].read.row)
  {
    var s' := Next(s, e);
    HarmFades(s, e, l);
    if e.FillCache? {
      assert !HarmfulRequest(s, l, e.r);
    }
    assert l in s.cache && l in s'.cache && s'.cache[l] == s.cache[l] && Readable(s', l) ==> Readable(s, l);
  }

  lemma RequestsStayClean(s: Race, e: Step, l: Lookup)
    requires CacheExplained(s) && l in s.rows && Enabled(s, e) && !(e.Write? && e.l == l) && Clean(s, l)
    ensures l in Next(s, e).rows && forall r :: !HarmfulRequest(Next(s, e), l, r)
  {
    HarmFades(s, e, l);
    forall r ensures !HarmfulRequest(Next(s, e), l, r) {
      assert !HarmfulRequest(s, l, r);
    }
  }

  lemma CleanStays(s: Race, e: Step, l: Lookup)
    requires CacheExplained(s) && l in s.rows && Enabled(s, e) && !(e.Write? && e.l == l) && Clean(s, l)
    ensures l in Next(s, e).rows && Next(s, e).rows[l] == s.rows[l] && Clean(Next(s, e), l)
    ensures OnlyCurrent(Next(s, e), |s.accepted|, l, s.rows[l])
  {
    HarmFades(s, e, l);
    CacheStaysClean(s, e, l);
    RequestsStayClean(s, e, l);
    if e.Decide? {
      assert !HarmfulRequest(s, l, e.r);
    }
  }

  lemma {:induction false} CleanRun(s: Race, run: seq<Step>, l: Lookup)
    requires Inv(s) && l in s.rows && EnabledRun(s, run) && NoWrite(run, l) && Clean(s, l)
    ensures |s.accepted| <= |Run(s, run).accepted| && s.accepted == Run(s, run).accepted[..|s.accepted|]
    ensures OnlyCurrent(Run(s, run), |s.accepted|, l, s.rows[l])
    decreases |run|
  {
    if run != [] {
      var s' := Next(s, run[0]);
      StepKeeps(s, run[0]);
      assert !(run[0].Write? && run[0].l == l);
      CleanStays(s, run[0], l);
      assert forall i :: 0 <= i < |run| - 1 ==> run[1..][i] == run[i + 1];
      CleanRun(s', run[1..], l);
      var t := Run(s', run[1..]);
      forall i | |s.accepted| <= i < |t.accepted| && t.accepted[i].read.l == l
        ensures t.accepted[i].read.row == s.rows[l]
      {
        if i < |s'.accepted| {
          assert t.accepted[i] == t.accepted[..|s'.accepted|][i];
        }
      }
    }
  }

  function Membership(row: KeyRow): set<(User, Workspace)>
    requires row.issuer.Some?
  {
    {(row.issuer.value, row.workspace)}
  }

  lemma TwoSteps(s: Race, a: Step, b: Step)
    requires Enabled(s, a) && Enabled(Next(s, a), b)
    ensures EnabledRun(s, [a, b]) && Run(s, [a, b]) == Next(Next(s, a), b)
  {
    var rest := [a, b][1..];
    assert rest == [b] && rest[1..] == [];
    assert Run(Next(s, a), rest) == Run(Next(Next(s, a), b), rest[1..]);
  }

  lemma ThreeSteps(s: Race, a: Step, b: Step, c: Step)
    requires Enabled(s, a) && Enabled(Next(s, a), b) && Enabled(Next(Next(s, a), b), c)
    ensures EnabledRun(s, [a, b, c]) && Run(s, [a, b, c]) == Next(Next(Next(s, a), b), c)
  {
    TwoSteps(Next(s, a), b, c);
    assert [a, b, c][1..] == [b, c];
  }

  /** A harmful row in hand is accepted once its issuer is made a member. */
  lemma HarmfulRequestIsAccepted(s: Race, l: Lookup, r: RequestId)
    requires l in s.rows && HarmfulRequest(s, l, r)
    ensures !Settled(s, l)
  {
    var row := InHand(s.requests[r]).value.row;
    var join := SetMembers(Membership(row));
    var run := if s.requests[r].Ready? then [join, Decide(r)] else [join, FillCache(r), Decide(r)];
    if s.requests[r].Ready? {
      TwoSteps(s, join, Decide(r));
    } else {
      ThreeSteps(s, join, FillCache(r), Decide(r));
    }
    var t := Run(s, run);
    assert |t.accepted| == |s.accepted| + 1 && t.accepted[|s.accepted|].read == InHand(s.requests[r]).value;
    assert NoWrite(run, l) && !OnlyCurrent(t, |s.accepted|, l, s.rows[l]);
  }

  lemma HarmfulEntryIsAccepted(s: Race, l: Lookup)
    requires CacheExplained(s) && l in s.rows && Readable(s, l) && Harmful(s, l, s.cache[l].read.row)
    ensures !Settled(s, l)
  {
    var join := SetMembers(Membership(s.cache[l].read.row));
    ThreeSteps(s, join, Get(0, l), Decide(0));
    var run := [join, Get(0, l), Decide(0)];
    var t := Run(s, run);
    assert |t.accepted| == |s.accepted| + 1 && t.accepted[|s.accepted|].read == s.cache[l].read;
    assert NoWrite(run, l) && !OnlyCurrent(t, |s.accepted|, l, s.rows[l]);
  }

  /** A key has settled exactly when no superseded row of it that is active and names an
      issuer can be read from the cache or is in a request's hand. */
  lemma SettledIff(s: Race, l: Lookup)
    requires Inv(s) && l in s.rows
    ensures Settled(s, l) <==> Clean(s, l)
  {
    if Clean(s, l) {
      forall run | EnabledRun(s, run) && NoWrite(run, l) ensures OnlyCurrent(Run(s, run), |s.accepted|, l, s.rows[l]) {
        CleanRun(s, run, l);
      }
    } else if Readable(s, l) && Harmful(s, l, s.cache[l].read.row) {
      HarmfulEntryIsAccepted(s, l);
    } else {
      var r :| HarmfulRequest(s, l, r);
      HarmfulRequestIsAccepted(s, l, r);
    }
  }

  /** So the signal settles a change at once exactly when no request has such a row in hand. */
  lemma BustSettlesIff(s: Race, l: Lookup)
    requires Inv(s) && l in s.rows
    ensures Settled(Next(s, Bust(l)), l) <==> forall r :: !HarmfulRequest(s, l, r)
  {
    var s' := Next(s, Bust(l));
    StepKeeps(s, Bust(l));
    SettledIff(s', l);
    assert forall r :: HarmfulRequest(s', l, r) <==> HarmfulRequest(s, l, r);
  }

  /** Whatever the cache hands out and the checks pass is let through. */
  lemma HitIsAccepted(s: Race, l: Lookup, r: RequestId)
    requires CacheExplained(s) && Readable(s, l) && Accepts(s, s.cache[l].read.row)
    ensures var t := Next(Next(s, Get(r, l)), Decide(r));
            t.accepted == s.accepted + [Acceptance(s.cache[l].read, Some(Hit(s.cache[l].filledAt, s.now)),
                                                   s.now, s.step + 2, s.members)]
  {
  }

  /** The bound is real: a request that reads before the change and fills after the signal
      leaves a superseded row in the cache, for the next request to be let through on. */
  lemma LateFillStays(s: Race, l: Lookup, row: KeyRow, r: RequestId)
    requires CacheExplained(s) && l in s.rows && l in s.version && !Readable(s, l) && row != s.rows[l]
    requires Accepts(s, s.rows[l])
    ensures var read := Next(Next(s, Get(r, l)), Fetch(r));
            var late := Next(Next(Next(read, Write(l, row)), Bust(l)), FillCache(r));
            && Readable(late, l) && Accepts(late, late.cache[l].read.row)
            && l in late.rows && late.cache[l].read.row != late.rows[l]
  {
  }

  /** An edit fires its signal before its transaction commits. A request that reads and fills
      in between leaves a superseded row as well, although it had nothing in hand when the
      signal came. */
  lemma BustBeforeCommitIsTooEarly(s: Race, l: Lookup, row: KeyRow, r: RequestId)
    requires CacheExplained(s) && l in s.rows && l in s.version && row != s.rows[l] && Accepts(s, s.rows[l])
    ensures var read := Next(Next(Next(s, Bust(l)), Get(r, l)), Fetch(r));
            var late := Next(Next(read, FillCache(r)), Write(l, row));
            && Readable(late, l) && Accepts(late, late.cache[l].read.row)
            && l in late.rows && late.cache[l].read.row != late.rows[l]
  {
  }
}
