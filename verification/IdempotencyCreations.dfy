/** What the idempotency protocol is for: that one key creates one thing
    (apps/api/middleware.py, apps/api/routers/posts.py). The work is split at the point where
    it commits; the answer is finalized later, and a failure may fall between the two. */
module IdempotencyCreations {
  import opened Common
  import opened Idempotency
  import opened IdempotencyProtocol

  /** Something created under a key, by work that was claimed at `since`. */
  datatype Creation = Creation(k: SlotKey, since: int)

  /** The protocol, with all creations in order and the workers who have created but not
      answered yet. */
  datatype Ledger = Ledger(s: System, creations: seq<Creation>, made: set<Worker>)

  datatype Move = Create(w: Worker) | Protocol(step: Step)

  predicate CanMove(l: Ledger, m: Move) {
    match m
    case Create(w) => PhaseOf(l.s, w).Working? && w !in l.made
    case Protocol(step) => Enabled(l.s, step) && (step.Finish? ==> step.w in l.made)
  }

  function Moved(l: Ledger, m: Move): Ledger
    requires CanMove(l, m)
  {
    match m
    case Create(w) =>
      var p := PhaseOf(l.s, w);
      Ledger(l.s, l.creations + [Creation(p.k, p.since)], l.made + {w})
    case Protocol(step) =>
      Ledger(Next(l.s, step), l.creations,
             if step.Finish? || step.Fail? || step.Abandon? then l.made - {step.w} else l.made)
  }

  /** A worker releases its claim although it has created. */
  predicate FailsAfterCreating(l: Ledger, m: Move) {
    m.Protocol? && m.step.Fail? && m.step.w in l.made
  }

  ghost predicate CarefulRun(l: Ledger, moves: seq<Move>)
    decreases |moves|
  {
    Timely(l.s)
    && (moves != [] ==>
          CanMove(l, moves[0]) && !FailsAfterCreating(l, moves[0]) && CarefulRun(Moved(l, moves[0]), moves[1..]))
  }

  function RunOf(l: Ledger, moves: seq<Move>): Ledger
    requires CarefulRun(l, moves)
    decreases |moves|
  {
    if moves == [] then l else RunOf(Moved(l, moves[0]), moves[1..])
  }

  /** Creations under one key were claimed more than a lifetime apart. */
  ghost predicate CreationsApart(creations: seq<Creation>) {
    forall i, j :: 0 <= i < j < |creations| && creations[i].k == creations[j].k ==>
      creations[j].since - creations[i].since > TTL
  }

  // ---------------------------------------------------------------------
  // The invariant
  // ---------------------------------------------------------------------

  /** For a lifetime, the row that a creation was claimed with stays. */
  ghost predicate RowsRemain(l: Ledger) {
    forall i :: 0 <= i < |l.creations| ==>
      var c := l.creations[i];
      && c.since <= l.s.now
      && (l.s.now - c.since <= TTL ==> c.k in l.s.rows && l.s.rows[c.k].created == c.since)
  }

  /** Work that has not created yet was claimed more than a lifetime after every creation
      under its key. */
  ghost predicate NewcomersAreLate(l: Ledger) {
    forall i, w :: 0 <= i < |l.creations| && Holds(l.s, w, l.creations[i].k) && w !in l.made ==>
      PhaseOf(l.s, w).since - l.creations[i].since > TTL
  }

  ghost predicate HasCreated(l: Ledger, w: Worker) {
    PhaseOf(l.s, w).Working? && Creation(PhaseOf(l.s, w).k, PhaseOf(l.s, w).since) in l.creations
  }

  ghost predicate LedgerInv(l: Ledger) {
    && Inv(l.s) && CreationsApart(l.creations) && RowsRemain(l) && NewcomersAreLate(l)
    && (forall w :: w in l.made ==> HasCreated(l, w))
  }

  lemma CreateKeeps(l: Ledger, w: Worker)
    requires LedgerInv(l) && CanMove(l, Create(w))
    ensures LedgerInv(Moved(l, Create(w)))
  {
    var p, l' := PhaseOf(l.s, w), Moved(l, Create(w));
    assert Holds(l.s, w, p.k);
    forall i, v | 0 <= i < |l'.creations| && Holds(l'.s, v, l'.creations[i].k) && v !in l'.made
      ensures PhaseOf(l'.s, v).since - l'.creations[i].since > TTL
    {
      assert i < |l.creations| ==> l'.creations[i] == l.creations[i];
    }
    assert l'.creations[|l.creations|] == Creation(p.k, p.since);
  }

  lemma StepKeepsInv(s: System, step: Step)
    requires Inv(s) && Timely(s) && Enabled(s, step)
    ensures Inv(Next(s, step))
  {
    match step
    case Claim(w, k, fp) => ClaimKeeps(s, w, k, fp);
    case Read(w) => ReadKeeps(s, w);
    case Finish(w, status, body) => FinishKeeps(s, w, status, body);
    case Fail(w) => FailKeeps(s, w);
    case Abandon(w) => AbandonKeeps(s, w);
    case Sweep => SweepKeeps(s);
    case Tick(now) => TickKeeps(s, now);
  }

  lemma RowsStillRemain(l: Ledger, step: Step)
    requires LedgerInv(l) && CanMove(l, Protocol(step)) && !FailsAfterCreating(l, Protocol(step))
    ensures RowsRemain(Moved(l, Protocol(step)))
  {
    var l' := Moved(l, Protocol(step));
    forall i | 0 <= i < |l.creations|
      ensures var c := l.creations[i];
              c.since <= l'.s.now
              && (l'.s.now - c.since <= TTL ==> c.k in l'.s.rows && l'.s.rows[c.k].created == c.since)
    {
      if step.Fail? && PhaseOf(l.s, step.w).k == l.creations[i].k {
        assert Holds(l.s, step.w, l.creations[i].k);
      }
    }
  }

  lemma NewcomersStayLate(l: Ledger, step: Step)
    requires LedgerInv(l) && CanMove(l, Protocol(step)) && !FailsAfterCreating(l, Protocol(step))
    ensures NewcomersAreLate(Moved(l, Protocol(step)))
  {
    var l' := Moved(l, Protocol(step));
    forall i, v | 0 <= i < |l.creations| && Holds(l'.s, v, l.creations[i].k) && v !in l'.made
      ensures PhaseOf(l'.s, v).since - l.creations[i].since > TTL
    {
      if Holds(l.s, v, l.creations[i].k) {
        assert PhaseOf(l'.s, v) == PhaseOf(l.s, v);
      } else {
        assert step.Claim? && step.w == v && step.k == l.creations[i].k && step.k !in l.s.rows;
      }
    }
  }

  lemma MadeHaveCreated(l: Ledger, step: Step)
    requires LedgerInv(l) && CanMove(l, Protocol(step))
    ensures forall w :: w in Moved(l, Protocol(step)).made ==> HasCreated(Moved(l, Protocol(step)), w)
  {
    var l' := Moved(l, Protocol(step));
    forall w | w in l'.made ensures HasCreated(l', w) {
      assert HasCreated(l, w);
      assert PhaseOf(l'.s, w) == PhaseOf(l.s, w);
    }
  }

  lemma MoveKeeps(l: Ledger, m: Move)
    requires LedgerInv(l) && Timely(l.s) && CanMove(l, m) && !FailsAfterCreating(l, m)
    ensures LedgerInv(Moved(l, m))
  {
    match m
    case Create(w) => CreateKeeps(l, w);
    case Protocol(step) =>
      StepKeepsInv(l.s, step);
      RowsStillRemain(l, step);
      NewcomersStayLate(l, step);
      MadeHaveCreated(l, step);
  }

  lemma {:induction false} CarefulRunKeeps(l: Ledger, moves: seq<Move>)
    requires LedgerInv(l) && CarefulRun(l, moves)
    ensures LedgerInv(RunOf(l, moves))
    decreases |moves|
  {
    if moves != [] {
      MoveKeeps(l, moves[0]);
      CarefulRunKeeps(Moved(l, moves[0]), moves[1..]);
    }
  }

  // ---------------------------------------------------------------------
  // The guarantee
  // ---------------------------------------------------------------------

  /** For every interleaving in which work finishes within the lifetime and nobody releases a
      claim after creating: within a lifetime one key creates at most one thing. */
  lemma OneCreationPerKey(now: int, moves: seq<Move>)
    requires CarefulRun(Ledger(Start(now), [], {}), moves)
    ensures CreationsApart(RunOf(Ledger(Start(now), [], {}), moves).creations)
  {
    CarefulRunKeeps(Ledger(Start(now), [], {}), moves);
  }

  function Retried(l: Ledger, w: Worker, v: Worker, fp: int): Ledger
    requires PhaseOf(l.s, w).Working? && Free(l.s, v) && v !in l.made && PhaseOf(l.s, w).k in l.s.rows
    requires l.s.rows[PhaseOf(l.s, w).k].status == PENDING
  {
    var failed := Moved(l, Protocol(Fail(w)));
    var claimed := Moved(failed, Protocol(Claim(v, PhaseOf(l.s, w).k, fp)));
    Moved(claimed, Create(v))
  }

  /** When a worker fails and another retries, the retry creates a second thing within the
      lifetime exactly when the first had created already. */
  lemma RetryCreatesTwiceIff(l: Ledger, w: Worker, v: Worker, fp: int)
    requires LedgerInv(l) && Timely(l.s) && PhaseOf(l.s, w).Working? && Free(l.s, v)
    ensures v !in l.made && PhaseOf(l.s, w).k in l.s.rows && l.s.rows[PhaseOf(l.s, w).k].status == PENDING
    ensures !CreationsApart(Retried(l, w, v, fp).creations) <==> w in l.made
  {
    var p := PhaseOf(l.s, w);
    assert v in l.made ==> HasCreated(l, v);
    assert Holds(l.s, w, p.k);
    var after := Retried(l, w, v, fp).creations;
    assert after == l.creations + [Creation(p.k, l.s.now)];
    if w in l.made {
      assert HasCreated(l, w);
      var i :| 0 <= i < |l.creations| && l.creations[i] == Creation(p.k, p.since);
      assert after[i] == l.creations[i] && after[|l.creations|] == Creation(p.k, l.s.now);
    } else {
      assert forall i :: 0 <= i < |l.creations| ==> after[i] == l.creations[i];
    }
  }
}
