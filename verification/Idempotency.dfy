/** The idempotency table and the statements issued against it
    (apps/api/middleware.py, apps/api/tasks.py). */
module Idempotency {
  import opened Common

  // Rows older than this many seconds may be swept: 24 hours.
  const TTL := 86400

  // The response status of a row whose work is still in flight.
  const PENDING := 0

  /** Unique per API key and client-chosen key. */
  datatype SlotKey = SlotKey(apiKey: int, key: string)

  /** Fingerprints are collision-free digests of method, path and body. */
  datatype Record = Record(fingerprint: int, status: int, body: string, created: int)

  type Table = map<SlotKey, Record>

  /** How a losing claim reads the row it lost against. */
  datatype Verdict = Gone | Reused | InFlight | Replay(status: int, body: string)

  function Fresh(fp: int, now: int): Record {
    Record(fp, PENDING, "", now)
  }

  function Judge(rows: Table, k: SlotKey, fp: int): Verdict {
    if k !in rows then Gone
    else if rows[k].fingerprint != fp then Reused
    else if rows[k].status == PENDING then InFlight
    else Replay(rows[k].status, rows[k].body)
  }

  function Finalized(rows: Table, k: SlotKey, status: int, body: string): Table {
    if k in rows then rows[k := rows[k].(status := status, body := body)] else rows
  }

  function Released(rows: Table, k: SlotKey): Table {
    if k in rows && rows[k].status == PENDING then rows - {k} else rows
  }

  function Swept(rows: Table, now: int): Table {
    map k | k in rows && rows[k].created >= now - TTL :: rows[k]
  }

  datatype Disposition = Passthrough | Claimed | Lost(verdict: Verdict)

  class RecordTable {
    var rows: Table

    constructor ()
      ensures rows == map[]
    {
      rows := map[];
    }

    /** The gate in front of a POST, when nothing runs between the failed insert and the
        read that follows it. */
    method ClaimSlot(apiKey: int, key: Option<string>, fp: int, now: int) returns (d: Disposition)
      modifies this
      ensures key.None? || key.value == "" ==> d == Passthrough && rows == old(rows)
      ensures key.Some? && key.value != "" ==>
                var k := SlotKey(apiKey, key.value);
                if k !in old(rows) then d == Claimed && rows == old(rows)[k := Fresh(fp, now)]
                else d == Lost(Judge(old(rows), k, fp)) && d.verdict != Gone && rows == old(rows)
    {
      if key.None? || key.value == "" {
        return Passthrough;
      }
      var k := SlotKey(apiKey, key.value);
      var ok := TryInsert(k, fp, now);
      if ok {
        return Claimed;
      }
      var verdict := LookUp(k, fp);
      return Lost(verdict);
    }

    /** The insert; false is the integrity error of the unique constraint. */
    method TryInsert(k: SlotKey, fp: int, now: int) returns (ok: bool)
      modifies this
      ensures ok == (k !in old(rows))
      ensures rows == if ok then old(rows)[k := Fresh(fp, now)] else old(rows)
    {
      if k in rows {
        return false;
      }
      rows := rows[k := Record(fp, PENDING, "", now)];
      return true;
    }

    method LookUp(k: SlotKey, fp: int) returns (v: Verdict)
      ensures v == Judge(rows, k, fp)
    {
      if k !in rows {
        return Gone;
      }
      var existing := rows[k];
      if existing.fingerprint != fp {
        return Reused;
      }
      if existing.status == PENDING {
        return InFlight;
      }
      return Replay(existing.status, existing.body);
    }

    method FinalizeResponse(k: SlotKey, status: int, body: string)
      modifies this
      ensures rows == Finalized(old(rows), k, status, body)
    {
      if k in rows {
        rows := rows[k := rows[k].(status := status, body := body)];
      }
    }

    method ReleaseClaim(k: SlotKey)
      modifies this
      ensures rows == Released(old(rows), k)
      ensures forall j :: j in old(rows) && old(rows)[j].status != PENDING ==> j in rows && rows[j] == old(rows)[j]
    {
      if k in rows && rows[k].status == PENDING {
        rows := rows - {k};
      }
    }

    method SweepStale(now: int)
      modifies this
      ensures rows == Swept(old(rows), now)
    {
      var cutoff := now - TTL;
      rows := map k | k in rows && !(rows[k].created < cutoff) :: rows[k];
    }
  }
}

/** Any number of workers over that table, statement by statement
    (apps/api/middleware.py, apps/api/routers/posts.py, apps/api/routers/media.py). */
module IdempotencyProtocol {
  import opened Common
  import opened Idempotency

  type Worker = int

  datatype Answer = Created(status: int, body: string) | Judged(verdict: Verdict) | Errored

  /** Where a worker is: between requests, about to read the row it lost against, doing the
      work it claimed at `since`, or finished with an answer. */
  datatype Phase =
    | Idle
    | Losing(k: SlotKey, fp: int)
    | Working(k: SlotKey, fp: int, since: int)
    | Answered(k: SlotKey, fp: int, answer: Answer)

  /** A finished piece of work: what it was for, what it answered, when it was claimed. */
  datatype Completion = Completion(k: SlotKey, fp: int, status: int, body: string, since: int)

  /** `orphans` are the slots whose worker went away without finishing or releasing: a killed
      process, or an upload to a folder that does not exist
      (apps/api/routers/media.py). */
  datatype System = System(
    rows: Table, workers: map<Worker, Phase>, now: int, done: set<Completion>, orphans: set<SlotKey>)

  datatype Step =
    | Claim(w: Worker, k: SlotKey, fp: int)
    | Read(w: Worker)
    | Finish(w: Worker, status: int, body: string)
    | Fail(w: Worker)
    | Abandon(w: Worker)
    | Sweep
    | Tick(now: int)

  function PhaseOf(s: System, w: Worker): Phase {
    if w in s.workers then s.workers[w] else Idle
  }

  predicate Free(s: System, w: Worker) {
    PhaseOf(s, w).Idle? || PhaseOf(s, w).Answered?
  }

  predicate Enabled(s: System, step: Step) {
    match step
    case Claim(w, _, _) => Free(s, w)
    case Read(w) => PhaseOf(s, w).Losing?
    case Finish(w, status, _) => PhaseOf(s, w).Working? && status != PENDING
    case Fail(w) => PhaseOf(s, w).Working?
    case Abandon(w) => PhaseOf(s, w).Working?
    case Sweep => true
    case Tick(now) => s.now <= now
  }

  function To(s: System, w: Worker, p: Phase): System {
    s.(workers := s.workers[w := p])
  }

  function Next(s: System, step: Step): System
    requires Enabled(s, step)
  {
    match step
    case Claim(w, k, fp) =>
      if k in s.rows then To(s, w, Losing(k, fp))
      else To(s, w, Working(k, fp, s.now)).(rows := s.rows[k := Fresh(fp, s.now)])
    case Read(w) =>
      var p := PhaseOf(s, w);
      To(s, w, Answered(p.k, p.fp, Judged(Judge(s.rows, p.k, p.fp))))
    case Finish(w, status, body) =>
      var p := PhaseOf(s, w);
      To(s, w, Answered(p.k, p.fp, Created(status, body)))
        .(rows := Finalized(s.rows, p.k, status, body),
          done := s.done + {Completion(p.k, p.fp, status, body, p.since)})
    case Fail(w) =>
      var p := PhaseOf(s, w);
      To(s, w, Answered(p.k, p.fp, Errored)).(rows := Released(s.rows, p.k))
    case Abandon(w) =>
      To(s, w, Idle).(orphans := s.orphans + {PhaseOf(s, w).k})
    case Sweep =>
      var rows := Swept(s.rows, s.now);
      s.(rows := rows, orphans := set k | k in s.orphans && k in rows)
    case Tick(now) => s.(now := now)
  }

  /** Work in progress has not outlived the lifetime of its row. */
  ghost predicate Timely(s: System) {
    forall w :: PhaseOf(s, w).Working? ==> s.now - PhaseOf(s, w).since <= TTL
  }

  ghost predicate TimelyRun(s: System, steps: seq<Step>)
    decreases |steps|
  {
    Timely(s) && (steps != [] ==> Enabled(s, steps[0]) && TimelyRun(Next(s, steps[0]), steps[1..]))
  }

  function Run(s: System, steps: seq<Step>): System
    requires TimelyRun(s, steps)
    decreases |steps|
  {
    if steps == [] then s else Run(Next(s, steps[0]), steps[1..])
  }

  function Start(now: int): System {
    System(map[], map[], now, {}, {})
  }

  // ---------------------------------------------------------------------
  // The invariant
  // ---------------------------------------------------------------------

  ghost predicate Holds(s: System, w: Worker, k: SlotKey) {
    PhaseOf(s, w).Working? && PhaseOf(s, w).k == k
  }

  /** Work in progress owns a pending row of its own, dated when it was claimed. */
  ghost predicate HoldersOwnRows(s: System) {
    && (forall w :: PhaseOf(s, w).Working? ==>
          var p := PhaseOf(s, w);
          p.k in s.rows && s.rows[p.k] == Fresh(p.fp, p.since) && p.k !in s.orphans && p.since <= s.now)
    && (forall v, w :: PhaseOf(s, v).Working? && PhaseOf(s, w).Working? && PhaseOf(s, v).k == PhaseOf(s, w).k ==> v == w)
  }

  /** A pending row is somebody's work in progress, or abandoned; a finalized row is a
      completion's answer. */
  ghost predicate RowsAreExplained(s: System) {
    && (forall k :: k in s.rows && s.rows[k].status == PENDING ==> k in s.orphans || exists w :: Holds(s, w, k))
    && (forall k :: k in s.orphans ==> k in s.rows && s.rows[k].status == PENDING)
    && (forall k :: k in s.rows && s.rows[k].status != PENDING ==>
          Completion(k, s.rows[k].fingerprint, s.rows[k].status, s.rows[k].body, s.rows[k].created) in s.done)
  }

  /** A completion's row stays for the whole lifetime, so further work under the same key
      was claimed more than a lifetime later. */
  ghost predicate CompletionsStay(s: System) {
    && (forall c :: c in s.done ==> c.since <= s.now && c.status != PENDING)
    && (forall c :: c in s.done && s.now - c.since <= TTL ==>
          c.k in s.rows && s.rows[c.k] == Record(c.fp, c.status, c.body, c.since))
    && (forall c, w :: c in s.done && Holds(s, w, c.k) ==> PhaseOf(s, w).since - c.since > TTL)
    && (forall c, d :: c in s.done && d in s.done && c.k == d.k && c != d ==>
          c.since - d.since > TTL || d.since - c.since > TTL)
  }

  ghost predicate RepliesAreFaithful(s: System) {
    forall w :: PhaseOf(s, w).Answered? && PhaseOf(s, w).answer.Judged? && PhaseOf(s, w).answer.verdict.Replay? ==>
      var p := PhaseOf(s, w);
      exists c :: c in s.done && c.k == p.k && c.fp == p.fp
                  && c.status == p.answer.verdict.status && c.body == p.answer.verdict.body
  }

  ghost predicate Inv(s: System) {
    HoldersOwnRows(s) && RowsAreExplained(s) && CompletionsStay(s) && RepliesAreFaithful(s)
  }

  lemma ClaimKeeps(s: System, w: Worker, k: SlotKey, fp: int)
    requires Inv(s) && Free(s, w)
    ensures Inv(Next(s, Claim(w, k, fp)))
  {
    ClaimKeepsRows(s, w, k, fp);
    ClaimKeepsAnswers(s, w, k, fp);
  }

  lemma ClaimKeepsRows(s: System, w: Worker, k: SlotKey, fp: int)
    requires Inv(s) && Free(s, w)
    ensures HoldersOwnRows(Next(s, Claim(w, k, fp))) && RowsAreExplained(Next(s, Claim(w, k, fp)))
  {
    var s' := Next(s, Claim(w, k, fp));
    OthersUnmoved(s, s', w, PhaseOf(s', w));
    forall j | j in s.rows && s.rows[j].status == PENDING && j !in s.orphans ensures exists v :: Holds(s', v, j) {
      var v :| Holds(s, v, j);
      assert Holds(s', v, j);
    }
    if k !in s.rows {
      assert Holds(s', w, k);
    }
  }

  lemma ClaimKeepsAnswers(s: System, w: Worker, k: SlotKey, fp: int)
    requires Inv(s) && Free(s, w)
    ensures CompletionsStay(Next(s, Claim(w, k, fp))) && RepliesAreFaithful(Next(s, Claim(w, k, fp)))
  {
    var s' := Next(s, Claim(w, k, fp));
    OthersUnmoved(s, s', w, PhaseOf(s', w));
    forall v, c | c in s'.done && Holds(s', v, c.k) ensures PhaseOf(s', v).since - c.since > TTL {
      assert Holds(s, v, c.k) || (v == w && c.k == k && k !in s.rows);
    }
  }

  lemma OthersUnmoved(s: System, s': System, w: Worker, p: Phase)
    requires s'.workers == s.workers[w := p]
    ensures forall v :: v != w ==> PhaseOf(s', v) == PhaseOf(s, v)
  {
  }

  lemma ReadKeeps(s: System, w: Worker)
    requires Inv(s) && PhaseOf(s, w).Losing?
    ensures Inv(Next(s, Read(w)))
  {
    var s' := Next(s, Read(w));
    OthersUnmoved(s, s', w, PhaseOf(s', w));
    forall j | j in s.rows && s.rows[j].status == PENDING && j !in s.orphans ensures exists v :: Holds(s', v, j) {
      var v :| Holds(s, v, j);
      assert Holds(s', v, j);
    }
  }

  lemma FinishKeeps(s: System, w: Worker, status: int, body: string)
    requires Inv(s) && Enabled(s, Finish(w, status, body))
    ensures Inv(Next(s, Finish(w, status, body)))
  {
    FinishKeepsHolders(s, w, status, body);
    FinishKeepsRows(s, w, status, body);
    FinishKeepsCompletions(s, w, status, body);
    FinishKeepsReplies(s, w, status, body);
  }

  lemma FinishKeepsHolders(s: System, w: Worker, status: int, body: string)
    requires HoldersOwnRows(s) && Enabled(s, Finish(w, status, body))
    ensures HoldersOwnRows(Next(s, Finish(w, status, body)))
  {
    var s' := Next(s, Finish(w, status, body));
    OthersUnmoved(s, s', w, PhaseOf(s', w));
  }

  lemma FinishKeepsRows(s: System, w: Worker, status: int, body: string)
    requires HoldersOwnRows(s) && RowsAreExplained(s) && Enabled(s, Finish(w, status, body))
    ensures RowsAreExplained(Next(s, Finish(w, status, body)))
  {
    var s' := Next(s, Finish(w, status, body));
    OthersUnmoved(s, s', w, PhaseOf(s', w));
    var p := PhaseOf(s, w);
    forall j | j in s'.rows && s'.rows[j].status == PENDING && j !in s'.orphans ensures exists v :: Holds(s', v, j) {
      assert j != p.k;
      var v :| Holds(s, v, j);
      assert Holds(s', v, j);
    }
  }

  lemma FinishKeepsCompletions(s: System, w: Worker, status: int, body: string)
    requires HoldersOwnRows(s) && CompletionsStay(s) && Enabled(s, Finish(w, status, body))
    ensures CompletionsStay(Next(s, Finish(w, status, body)))
  {
    var s' := Next(s, Finish(w, status, body));
    OthersUnmoved(s, s', w, PhaseOf(s', w));
    assert Holds(s, w, PhaseOf(s, w).k);
    forall v, c | c in s'.done && Holds(s', v, c.k) ensures PhaseOf(s', v).since - c.since > TTL {
      assert Holds(s, v, c.k);
    }
  }

  lemma FinishKeepsReplies(s: System, w: Worker, status: int, body: string)
    requires RepliesAreFaithful(s) && Enabled(s, Finish(w, status, body))
    ensures RepliesAreFaithful(Next(s, Finish(w, status, body)))
  {
    var s' := Next(s, Finish(w, status, body));
    OthersUnmoved(s, s', w, PhaseOf(s', w));
  }

  lemma FailKeeps(s: System, w: Worker)
    requires Inv(s) && PhaseOf(s, w).Working?
    ensures Inv(Next(s, Fail(w)))
  {
    var s' := Next(s, Fail(w));
    OthersUnmoved(s, s', w, PhaseOf(s', w));
    var p := PhaseOf(s, w);
    forall j | j in s'.rows && s'.rows[j].status == PENDING && j !in s'.orphans ensures exists v :: Holds(s', v, j) {
      var v :| Holds(s, v, j);
      assert Holds(s', v, j);
    }
    forall v, c | c in s'.done && Holds(s', v, c.k) ensures PhaseOf(s', v).since - c.since > TTL {
      assert Holds(s, v, c.k);
    }
  }

  lemma AbandonKeeps(s: System, w: Worker)
    requires Inv(s) && PhaseOf(s, w).Working?
    ensures Inv(Next(s, Abandon(w)))
  {
    var s' := Next(s, Abandon(w));
    OthersUnmoved(s, s', w, PhaseOf(s', w));
    forall j | j in s'.rows && s'.rows[j].status == PENDING && j !in s'.orphans ensures exists v :: Holds(s', v, j) {
      var v :| Holds(s, v, j);
      assert Holds(s', v, j);
    }
    forall v, c | c in s'.done && Holds(s', v, c.k) ensures PhaseOf(s', v).since - c.since > TTL {
      assert Holds(s, v, c.k);
    }
  }

  lemma SweepKeeps(s: System)
    requires Inv(s) && Timely(s)
    ensures Inv(Next(s, Sweep))
  {
    var s' := Next(s, Sweep);
    assert forall v :: PhaseOf(s', v) == PhaseOf(s, v);
    forall j | j in s'.rows && s'.rows[j].status == PENDING && j !in s'.orphans ensures exists v :: Holds(s', v, j) {
      var v :| Holds(s, v, j);
      assert Holds(s', v, j);
    }
    forall v, c | c in s'.done && Holds(s', v, c.k) ensures PhaseOf(s', v).since - c.since > TTL {
      assert Holds(s, v, c.k);
    }
  }

  lemma TickKeeps(s: System, now: int)
    requires Inv(s) && s.now <= now
    ensures Inv(Next(s, Tick(now)))
  {
    var s' := Next(s, Tick(now));
    assert forall v :: PhaseOf(s', v) == PhaseOf(s, v);
    forall j | j in s'.rows && s'.rows[j].status == PENDING && j !in s'.orphans ensures exists v :: Holds(s', v, j) {
      var v :| Holds(s, v, j);
      assert Holds(s', v, j);
    }
    forall v, c | c in s'.done && Holds(s', v, c.k) ensures PhaseOf(s', v).since - c.since > TTL {
      assert Holds(s, v, c.k);
    }
  }

  lemma {:induction false} RunKeeps(s: System, steps: seq<Step>)
    requires Inv(s) && TimelyRun(s, steps)
    ensures Inv(Run(s, steps))
    decreases |steps|
  {
    if steps != [] {
      match steps[0] {
        case Claim(w, k, fp) => ClaimKeeps(s, w, k, fp);
        case Read(w) => ReadKeeps(s, w);
        case Finish(w, status, body) => FinishKeeps(s, w, status, body);
        case Fail(w) => FailKeeps(s, w);
        case Abandon(w) => AbandonKeeps(s, w);
        case Sweep => SweepKeeps(s);
        case Tick(now) => TickKeeps(s, now);
      }
      RunKeeps(Next(s, steps[0]), steps[1..]);
    }
  }

  // ---------------------------------------------------------------------
  // The guarantees
  // ---------------------------------------------------------------------

  /** For every interleaving in which work finishes within the lifetime: a slot has at most
      one holder, and a pending row exists exactly while there is one (or its worker went
      away); every replay carries the answer of work done for the same key and the same
      fingerprint; and two pieces of finished work under one key were claimed more than a
      lifetime apart. */
  lemma ProtocolIsSafe(now: int, steps: seq<Step>)
    requires TimelyRun(Start(now), steps)
    ensures var s := Run(Start(now), steps);
            && (forall v, w, k :: Holds(s, v, k) && Holds(s, w, k) ==> v == w)
            && (forall k :: (k in s.rows && s.rows[k].status == PENDING)
                            <==> (k in s.orphans || exists w :: Holds(s, w, k)))
            && (forall w, k :: Holds(s, w, k) ==> k !in s.orphans)
            && RepliesAreFaithful(s)
            && (forall c, d :: c in s.done && d in s.done && c.k == d.k && c != d ==>
                  c.since - d.since > TTL || d.since - c.since > TTL)
  {
    RunKeeps(Start(now), steps);
  }

  /** For a lifetime after the claim, a retry of finished work gets that very answer, and a
      different request under the same key is refused. */
  lemma RetryIsAnswered(s: System, c: Completion, w: Worker, fp: int)
    requires Inv(s) && c in s.done && s.now - c.since <= TTL && Free(s, w)
    ensures var lost := Next(s, Claim(w, c.k, fp));
            && PhaseOf(lost, w) == Losing(c.k, fp) && lost.rows == s.rows
            && PhaseOf(Next(lost, Read(w)), w)
               == Answered(c.k, fp, Judged(if fp == c.fp then Replay(c.status, c.body) else Reused))
  {
  }

  /** A second request under a key that is in use, or abandoned, is refused if it asks for
      something else, and told to wait if it is the same. If the first worker fails before
      the second one reads, the row is gone. */
  lemma LoserIsTold(s: System, k: SlotKey, w: Worker, fp: int)
    requires Inv(s) && Free(s, w) && k in s.rows && s.rows[k].status == PENDING
    ensures var lost := Next(s, Claim(w, k, fp));
            && PhaseOf(lost, w) == Losing(k, fp) && lost.rows == s.rows
            && PhaseOf(Next(lost, Read(w)), w)
               == Answered(k, fp, Judged(if fp == s.rows[k].fingerprint then InFlight else Reused))
    ensures forall v :: Holds(s, v, k) ==>
              var lost := Next(s, Claim(w, k, fp));
              && v != w && PhaseOf(s, v).fp == s.rows[k].fingerprint && PhaseOf(lost, v).Working?
              && PhaseOf(Next(lost, Fail(v)), w).Losing?
              && PhaseOf(Next(Next(lost, Fail(v)), Read(w)), w) == Answered(k, fp, Judged(Gone))
  {
  }

  /** A sweep takes the rows whose lifetime is over, finalized or not, and no others. */
  lemma SweptIff(rows: Table, now: int, k: SlotKey)
    requires k in rows
    ensures k !in Swept(rows, now) <==> now - rows[k].created > 86400
    ensures k in Swept(rows, now) ==> Swept(rows, now)[k] == rows[k]
    ensures Swept(rows, now).Keys <= rows.Keys
  {
  }

  /** Releasing never takes an answer away. */
  lemma ReleaseKeepsAnswers(s: System, w: Worker)
    requires PhaseOf(s, w).Working?
    ensures forall k :: k in s.rows && s.rows[k].status != PENDING ==>
              k in Next(s, Fail(w)).rows && Next(s, Fail(w)).rows[k] == s.rows[k]
  {
  }

  /** An abandoned slot is claimable again once a sweep runs after its lifetime, and not
      before: until then every retry is told that the request is in flight. */
  lemma OrphansAreFreed(s: System, k: SlotKey, w: Worker, fp: int)
    requires Inv(s) && k in s.orphans && Free(s, w)
    ensures var swept := Next(s, Sweep);
            PhaseOf(Next(swept, Claim(w, k, fp)), w).Working? <==> s.now - s.rows[k].created > TTL
    ensures PhaseOf(Next(Next(s, Claim(w, k, fp)), Read(w)), w)
            == Answered(k, fp, Judged(if fp == s.rows[k].fingerprint then InFlight else Reused))
  {
    LoserIsTold(s, k, w, fp);
  }

  /** The time limit is needed: as soon as one piece of work is overdue, a sweep and one more
      claim give its slot a second holder. */
  lemma OverdueWorkLosesItsSlot(s: System, v: Worker, w: Worker, fp: int)
    requires HoldersOwnRows(s) && PhaseOf(s, v).Working? && s.now - PhaseOf(s, v).since > TTL
    requires Free(s, w)
    ensures var s' := Next(Next(s, Sweep), Claim(w, PhaseOf(s, v).k, fp));
            v != w && Holds(s', v, PhaseOf(s, v).k) && Holds(s', w, PhaseOf(s, v).k)
  {
    var swept := Next(s, Sweep);
    assert PhaseOf(swept, v) == PhaseOf(s, v) && PhaseOf(swept, w) == PhaseOf(s, w);
  }

  /** And if the overdue work then finishes, its answer goes out under the second holder's
      fingerprint: whoever repeats the second request gets the first one's answer. */
  lemma OverdueAnswerIsReplayed(s: System, v: Worker, w: Worker, u: Worker, fp: int, status: int, body: string)
    requires HoldersOwnRows(s) && PhaseOf(s, v).Working? && s.now - PhaseOf(s, v).since > TTL
    requires Free(s, w) && Free(s, u) && u != w && status != PENDING
    ensures var k := PhaseOf(s, v).k;
            var two := Next(Next(s, Sweep), Claim(w, k, fp));
            && PhaseOf(two, v).Working? && PhaseOf(two, v).k == k && Free(two, u)
            && var lost := Next(Next(two, Finish(v, status, body)), Claim(u, k, fp));
               && PhaseOf(lost, w) == Working(k, fp, s.now) && PhaseOf(lost, u).Losing?
               && PhaseOf(Next(lost, Read(u)), u) == Answered(k, fp, Judged(Replay(status, body)))
  {
    OverdueWorkLosesItsSlot(s, v, w, fp);
  }

  /** Likewise if the second holder has finished by then: its stored answer is overwritten. */
  lemma OverdueAnswerOverwrites(s: System, v: Worker, w: Worker, fp: int, mine: int, body: string, other: int, text: string)
    requires HoldersOwnRows(s) && PhaseOf(s, v).Working? && s.now - PhaseOf(s, v).since > TTL
    requires Free(s, w) && mine != PENDING && other != PENDING
    ensures var k := PhaseOf(s, v).k;
            var two := Next(Next(s, Sweep), Claim(w, k, fp));
            && PhaseOf(two, v).Working? && PhaseOf(two, w).Working?
            && var one := Next(two, Finish(w, other, text));
               && k in one.rows && one.rows[k] == Record(fp, other, text, s.now)
               && PhaseOf(one, v).Working? && PhaseOf(one, v).k == k
               && Next(one, Finish(v, mine, body)).rows == one.rows[k := Record(fp, mine, body, s.now)]
  {
    OverdueWorkLosesItsSlot(s, v, w, fp);
  }

  /** So no second holder can appear through a sweep and a claim exactly when no work is
      overdue. */
  lemma TimelyIff(s: System, w: Worker, fp: int)
    requires Inv(s) && Free(s, w)
    ensures Timely(s) <==>
              forall v, k :: v != w && Holds(s, v, k) ==> !Holds(Next(Next(s, Sweep), Claim(w, k, fp)), w, k)
  {
    var swept := Next(s, Sweep);
    assert PhaseOf(swept, w) == PhaseOf(s, w);
    if Timely(s) {
      forall v, k | v != w && Holds(s, v, k) ensures !Holds(Next(swept, Claim(w, k, fp)), w, k) {
        assert k in swept.rows;
      }
    } else {
      var v :| PhaseOf(s, v).Working? && s.now - PhaseOf(s, v).since > TTL;
      OverdueWorkLosesItsSlot(s, v, w, fp);
      assert Holds(s, v, PhaseOf(s, v).k);
    }
  }
}
