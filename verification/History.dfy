// Laws about the whole life of one task, over every run of the table.
module History {
  import opened Wrappers
  import opened Retry
  import opened Tasks
  import opened Effects

  // ----- the history grammar -----

  /** A statement that took effect on the task under study. */
  datatype Letter =
    | Claims(worker: string)
    | Beats(worker: string)
    | Completes(worker: string)
    | Fails(worker: string)
    | Sweeps
    | Cancels

  function Repeat(x: Letter, n: nat): (s: seq<Letter>)
    ensures |s| == n
  {
    if n == 0 then [] else Repeat(x, n - 1) + [x]
  }

  /** One finished attempt: a claim, some heartbeats, then a reported failure or a sweep. */
  datatype Attempt = Attempt(worker: string, beats: nat, swept: bool)

  datatype Ending =
    | Idle
    | Held(worker: string, beats: nat)
    | Succeeds(worker: string, beats: nat)
    | Withdrawn

  /** (Claim_w Beat_w* (Fail_w | Recover))* then one of: nothing, an open attempt,
      a completed attempt, a cancellation. */
  datatype Life = Life(past: seq<Attempt>, ending: Ending)

  function AttemptWord(a: Attempt): seq<Letter> {
    [Claims(a.worker)] + Repeat(Beats(a.worker), a.beats) + [if a.swept then Sweeps else Fails(a.worker)]
  }

  function PastWord(past: seq<Attempt>): seq<Letter> {
    if past == [] then [] else PastWord(past[..|past| - 1]) + AttemptWord(past[|past| - 1])
  }

  function EndingWord(e: Ending): seq<Letter> {
    match e
    case Idle => []
    case Held(w, n) => [Claims(w)] + Repeat(Beats(w), n)
    case Succeeds(w, n) => [Claims(w)] + Repeat(Beats(w), n) + [Completes(w)]
    case Withdrawn => [Cancels]
  }

  function Word(life: Life): seq<Letter> {
    PastWord(life.past) + EndingWord(life.ending)
  }

  /** The letter a statement writes into the history of row `t`, if it takes effect there. */
  function LetterOf(db: Db, e: Event, id: int): Option<Letter> {
    if id !in db.rows || Errors(db, e) || !Matches(db.rows[id], e, db.now) then None else
    match e
    case Claim(w, _, _, _, _) => Some(Claims(w))
    case Heartbeat(w, _) => Some(Beats(w))
    case Complete(w, _) => Some(Completes(w))
    case Fail(w, _, _, _) => Some(Fails(w))
    case Cancel(_) => Some(Cancels)
    case Recover => Some(Sweeps)
    case _ => None
  }

  /** The statements of a run that took effect on row `id`, in order. */
  function Letters(db: Db, es: seq<Event>, id: int): seq<Letter>
    requires forall e | e in es :: ValidJitter(e)
  {
    if es == [] then [] else
    var front := es[..|es| - 1];
    var l := LetterOf(Exec(db, front), es[|es| - 1], id);
    Letters(db, front, id) + if l.Some? then [l.value] else []
  }

  /** Where a task stands after a life: status, owner and attempts are all determined. */
  ghost predicate Describes(life: Life, t: Task) {
    match life.ending
    case Idle =>
      t.attempts == |life.past| &&
      t.status == (if |life.past| < t.maxAttempts then Pending else Dead)
    case Held(w, _) =>
      t.attempts == |life.past| + 1 && t.status == Running && t.claimedBy == Some(w)
    case Succeeds(_, _) =>
      t.attempts == |life.past| + 1 && t.status == Succeeded
    case Withdrawn =>
      t.attempts == |life.past| && t.status == Cancelled
  }

  function Extend(life: Life, l: Letter): Life {
    match (life.ending, l)
    case (Idle, Claims(w)) => Life(life.past, Held(w, 0))
    case (Idle, Cancels) => Life(life.past, Withdrawn)
    case (Held(w, n), Beats(_)) => Life(life.past, Held(w, n + 1))
    case (Held(w, n), Completes(_)) => Life(life.past, Succeeds(w, n))
    case (Held(w, n), Fails(_)) => Life(life.past + [Attempt(w, n, false)], Idle)
    case (Held(w, n), Sweeps) => Life(life.past + [Attempt(w, n, true)], Idle)
    case _ => life
  }

  /** The letter can follow: an idle task is claimed or cancelled, a held one is touched
      by its owner or by the sweeper, and nothing follows the other two endings. */
  predicate Follows(life: Life, l: Letter) {
    match life.ending
    case Idle => l.Claims? || l.Cancels?
    case Held(w, _) => l == Beats(w) || l == Completes(w) || l == Fails(w) || l == Sweeps
    case _ => false
  }

  lemma ExtendWord(life: Life, l: Letter)
    requires Follows(life, l)
    ensures Word(Extend(life, l)) == Word(life) + [l]
  {
    var after := Extend(life, l);
    match (life.ending, l) {
      case (Held(w, n), Fails(_)) =>
        assert after.past[..|after.past| - 1] == life.past;
      case (Held(w, n), Sweeps) =>
        assert after.past[..|after.past| - 1] == life.past;
      case _ =>
    }
  }

  lemma LifeStep(db: Db, e: Event, id: int, life: Life)
    requires Inv(db) && ValidJitter(e) && Enabled(db, e)
    requires id in db.rows && Describes(life, db.rows[id])
    ensures var l := LetterOf(db, e, id);
            var t := Next(db, e).rows[id];
            if l.Some? then Follows(life, l.value) && Describes(Extend(life, l.value), t)
            else t == db.rows[id]
  {
    RowStep(db, e, id);
  }

  lemma LettersSnoc(start: Db, es: seq<Event>, id: int)
    requires Run(start, es) && es != []
    ensures var front := es[..|es| - 1];
            var l := LetterOf(Exec(start, front), es[|es| - 1], id);
            Letters(start, es, id) ==
              if l.Some? then Letters(start, front, id) + [l.value] else Letters(start, front, id)
  {
  }

  /** Every run spells, on every task inserted in it, a word of the grammar, and the word alone
      fixes the task's status, owner and attempt count. In particular attempts counts the
      claims granted, although Complete and Fail never test status and Claim never tests
      attempts. */
  lemma {:induction false} HistoryGrammar(start: Db, es: seq<Event>, id: int)
    requires Inv(start) && Run(start, es) && id !in start.rows && id in Exec(start, es).rows
    ensures exists life :: Letters(start, es, id) == Word(life) && Describes(life, Exec(start, es).rows[id])
  {
    var front, e := es[..|es| - 1], es[|es| - 1];
    var db := Exec(start, front);
    InvRun(start, front);
    LettersSnoc(start, es, id);
    if id in db.rows {
      HistoryGrammar(start, front, id);
      var life :| Letters(start, front, id) == Word(life) && Describes(life, db.rows[id]);
      LifeStep(db, e, id, life);
      var l := LetterOf(db, e, id);
      if l.Some? {
        ExtendWord(life, l.value);
        assert Letters(start, es, id) == Word(Extend(life, l.value));
      }
    } else {
      NoLettersBefore(start, front, id);
      assert Letters(start, es, id) == Word(Life([], Idle));
    }
  }

  lemma {:induction false} NoLettersBefore(db: Db, es: seq<Event>, id: int)
    requires Inv(db) && Run(db, es) && id !in Exec(db, es).rows
    ensures Letters(db, es, id) == []
  {
    if es != [] {
      var front := es[..|es| - 1];
      InvRun(db, front);
      if id in Exec(db, front).rows {
        RowStep(Exec(db, front), es[|es| - 1], id);
      }
      NoLettersBefore(db, front, id);
    }
  }

  // ----- attempt accounting -----

  function ClaimCount(ls: seq<Letter>): nat {
    if ls == [] then 0 else ClaimCount(ls[..|ls| - 1]) + (if ls[|ls| - 1].Claims? then 1 else 0)
  }

  function CompleteCount(ls: seq<Letter>): nat {
    if ls == [] then 0 else CompleteCount(ls[..|ls| - 1]) + (if ls[|ls| - 1].Completes? then 1 else 0)
  }

  lemma CountSnoc(ls: seq<Letter>, l: Letter)
    ensures ClaimCount(ls + [l]) == ClaimCount(ls) + (if l.Claims? then 1 else 0)
    ensures CompleteCount(ls + [l]) == CompleteCount(ls) + (if l.Completes? then 1 else 0)
  {
    assert (ls + [l])[..|ls|] == ls;
  }

  lemma AccountingStep(db: Db, e: Event, id: int)
    requires Inv(db) && ValidJitter(e) && Enabled(db, e) && id in db.rows
    ensures id in Next(db, e).rows
    ensures var l := LetterOf(db, e, id);
            var t, u := db.rows[id], Next(db, e).rows[id];
            u.attempts == t.attempts + (if l.Some? && l.value.Claims? then 1 else 0) &&
            (t.status == Succeeded ==> l == None) &&
            (u.status == Succeeded <==> t.status == Succeeded || (l.Some? && l.value.Completes?))
  {
    RowStep(db, e, id);
  }

  /** In every run attempts equals the number of claims ever granted on the row; at most one
      Complete takes effect, and it does exactly when the task has succeeded. */
  lemma {:induction false} AttemptAccounting(start: Db, es: seq<Event>, id: int)
    requires Inv(start) && Run(start, es) && id !in start.rows && id in Exec(start, es).rows
    ensures var t := Exec(start, es).rows[id];
            var ls := Letters(start, es, id);
            ClaimCount(ls) == t.attempts && CompleteCount(ls) == if t.status == Succeeded then 1 else 0
  {
    var front, e := es[..|es| - 1], es[|es| - 1];
    var db := Exec(start, front);
    InvRun(start, front);
    LettersSnoc(start, es, id);
    if id in db.rows {
      AttemptAccounting(start, front, id);
      AccountingStep(db, e, id);
      var l := LetterOf(db, e, id);
      if l.Some? {
        CountSnoc(Letters(start, front, id), l.value);
      }
    } else {
      NoLettersBefore(start, front, id);
    }
  }

  lemma {:induction false} AttemptsGrow(db: Db, es: seq<Event>, id: int)
    requires Inv(db) && Run(db, es) && id in db.rows
    ensures id in Exec(db, es).rows && db.rows[id].attempts <= Exec(db, es).rows[id].attempts
  {
    if es != [] {
      var front := es[..|es| - 1];
      AttemptsGrow(db, front, id);
      InvRun(db, front);
      AccountingStep(Exec(db, front), es[|es| - 1], id);
    }
  }

  /** No pair (id, attempts) is granted twice: of two claims of a task in one run, the later
      one stamps a higher attempts value. */
  lemma GrantedOnce(db: Db, xs: seq<Event>, c: Event, ys: seq<Event>, d: Event, id: int)
    requires Inv(db) && Run(db, xs + [c]) && Run(Exec(db, xs + [c]), ys + [d])
    requires c.Claim? && id in c.picked && d.Claim? && id in d.picked
    ensures Run(db, xs + [c] + (ys + [d]))
    ensures id in Exec(db, xs + [c]).rows && id in Exec(db, xs + [c] + (ys + [d])).rows
    ensures Exec(db, xs + [c]).rows[id].attempts < Exec(db, xs + [c] + (ys + [d])).rows[id].attempts
  {
    RunConcat(db, xs + [c], ys + [d]);
    RunPrefix(db, xs, c);
    InvRun(db, xs);
    RowStep(Exec(db, xs), c, id);
    var mid := Exec(db, xs + [c]);
    InvRun(db, xs + [c]);
    RunPrefix(mid, ys, d);
    AttemptsGrow(mid, ys, id);
    InvRun(mid, ys);
    RowStep(Exec(mid, ys), d, id);
  }

  /** A terminal row is frozen field for field, whatever statements follow. */
  lemma {:induction false} TerminalFrozen(db: Db, es: seq<Event>, id: int)
    requires Inv(db) && Run(db, es)
    requires id in db.rows && db.rows[id].status in {Succeeded, Dead, Cancelled}
    ensures id in Exec(db, es).rows && Exec(db, es).rows[id] == db.rows[id]
  {
    if es != [] {
      var front, e := es[..|es| - 1], es[|es| - 1];
      TerminalFrozen(db, front, id);
      InvRun(db, front);
      RowStep(Exec(db, front), e, id);
    }
  }

  // ----- the trail a task leaves -----

  /** What the remaining columns say about a row: a task that was tried and is not
      running shows why, a heartbeat left on an idle row is the mark of an orphan, no task
      starts before its run time, and no retry waits longer than the backoff ceiling. */
  ghost predicate TrailOk(t: Task, now: int) {
    && (t.heartbeatAt.Some? && t.status != Running ==> t.lastError == Some(ORPHANED))
    && (t.status == Succeeded ==> t.heartbeatAt.None?)
    && (t.status == Dead || (t.status == Pending && t.attempts >= 1) ==> t.lastError.Some?)
    && (t.attempts == 0 ==> t.lastError.None?)
    && (t.status == Running && t.heartbeatAt.Some? ==> t.runAt <= t.heartbeatAt.value)
    && (t.status == Running || t.status == Succeeded || t.status == Dead ==> t.runAt <= now)
    && (t.status == Pending && t.attempts >= 1 ==> t.runAt <= now + SqlCeiling(t.attempts))
    && t.createdAt <= now
  }

  ghost predicate Trail(db: Db) {
    forall id | id in db.rows :: TrailOk(db.rows[id], db.now)
  }

  lemma TrailStep(db: Db, e: Event)
    requires Inv(db) && Trail(db) && ValidJitter(e) && Enabled(db, e)
    ensures Trail(Next(db, e))
  {
    forall id | id in Next(db, e).rows ensures TrailOk(Next(db, e).rows[id], Next(db, e).now) {
      if id in db.rows {
        RowStep(db, e, id);
      }
    }
  }

  /** Every reachable row carries its trail. */
  lemma {:induction false} TrailRun(db: Db, es: seq<Event>)
    requires Inv(db) && Trail(db) && Run(db, es)
    ensures Trail(Exec(db, es))
  {
    if es != [] {
      var front := es[..|es| - 1];
      TrailRun(db, front);
      InvRun(db, front);
      TrailStep(Exec(db, front), es[|es| - 1]);
    }
  }

  // ----- bounded life -----

  /** Status changes a task can still undergo. */
  function Budget(t: Task): int {
    if t.status.Terminal() then 0
    else 2 * (t.maxAttempts - t.attempts) + (if t.status == Running then 1 else 0)
  }

  function StatusChanges(db: Db, es: seq<Event>, id: int): nat
    requires forall e | e in es :: ValidJitter(e)
  {
    if es == [] then 0 else
    var before := Exec(db, es[..|es| - 1]).rows;
    var after := Exec(db, es).rows;
    StatusChanges(db, es[..|es| - 1], id) +
    (if id in before && id in after && before[id].status != after[id].status then 1 else 0)
  }

  /** Every effective statement other than a heartbeat strictly lowers the budget. */
  lemma BudgetStep(db: Db, e: Event, id: int)
    requires Inv(db) && ValidJitter(e) && Enabled(db, e) && id in db.rows
    ensures 0 <= Budget(Next(db, e).rows[id])
    ensures var l := LetterOf(db, e, id);
            if l.Some? && !l.value.Beats? then
              Budget(Next(db, e).rows[id]) < Budget(db.rows[id]) &&
              Next(db, e).rows[id].status != db.rows[id].status
            else
              Budget(Next(db, e).rows[id]) == Budget(db.rows[id]) &&
              Next(db, e).rows[id].status == db.rows[id].status
  {
    RowStep(db, e, id);
  }

  /** A task undergoes at most 2 * max_attempts status changes in any run. */
  lemma {:induction false} BoundedLife(db: Db, es: seq<Event>, id: int)
    requires Inv(db) && Run(db, es) && id in db.rows
    ensures id in Exec(db, es).rows
    ensures 0 <= Budget(Exec(db, es).rows[id])
    ensures StatusChanges(db, es, id) + Budget(Exec(db, es).rows[id]) <= Budget(db.rows[id])
    ensures StatusChanges(db, es, id) <= 2 * db.rows[id].maxAttempts
  {
    if es != [] {
      var front, e := es[..|es| - 1], es[|es| - 1];
      BoundedLife(db, front, id);
      InvRun(db, front);
      BudgetStep(Exec(db, front), e, id);
      RowStep(Exec(db, front), e, id);
    }
  }

  // ----- poison-task spacing -----

  /** The delay that k consecutive orphan cycles add, the first one at attempt a + 1. */
  function OrphanDelay(a: nat, k: nat): int {
    if k == 0 then 0 else OrphanDelay(a, k - 1) + HEARTBEAT_TTL + SqlCeiling(a + k)
  }

  /** The part of the invariant that carries the accumulated delay: `start` is the instant
      of the first claim, made when the row had `a` attempts. */
  ghost predicate Spaced(t: Task, a: nat, start: int) {
    t.attempts > a &&
    match t.status
    case Running => t.heartbeatAt.Some? && t.heartbeatAt.value >= start + OrphanDelay(a, t.attempts - a - 1)
    case Pending => t.runAt > start + OrphanDelay(a, t.attempts - a)
    case _ => true
  }

  predicate NoReportedFailure(ls: seq<Letter>) {
    forall i | 0 <= i < |ls| :: !ls[i].Fails?
  }

  /** From a fresh claim at `start`, as long as the task is only ever taken back by the
      sweeper, every later claim waits for all the orphan cycles before it: with k cycles in
      between it happens more than the sum of 90 s + min(300, 5 * 2^attempts) s later. */
  lemma {:induction false} PoisonSpacing(db: Db, es: seq<Event>, id: int, a: nat, start: int)
    requires Inv(db) && Run(db, es) && id in db.rows
    requires db.rows[id].status == Running && db.rows[id].attempts == a + 1
    requires db.rows[id].heartbeatAt == Some(start)
    requires NoReportedFailure(Letters(db, es, id))
    ensures id in Exec(db, es).rows
    ensures Spaced(Exec(db, es).rows[id], a, start)
  {
    if es != [] {
      var front, e := es[..|es| - 1], es[|es| - 1];
      var l := LetterOf(Exec(db, front), e, id);
      assert Letters(db, es, id) == Letters(db, front, id) + if l.Some? then [l.value] else [];
      assert forall i | 0 <= i < |Letters(db, front, id)| :: Letters(db, front, id)[i] == Letters(db, es, id)[i];
      PoisonSpacing(db, front, id, a, start);
      InvRun(db, front);
      RowStep(Exec(db, front), e, id);
      if l.Some? {
        assert Letters(db, es, id)[|Letters(db, front, id)|] == l.value;
      }
      SpacedStep(Exec(db, front), e, id, a, start);
    }
  }

  lemma SpacedStep(db: Db, e: Event, id: int, a: nat, start: int)
    requires Inv(db) && ValidJitter(e) && Enabled(db, e) && id in db.rows
    requires Spaced(db.rows[id], a, start)
    requires LetterOf(db, e, id) != Some(Fails(if e.Fail? then e.worker else ""))
    ensures Spaced(Next(db, e).rows[id], a, start)
  {
    RowStep(db, e, id);
  }

  /** The claim after k orphan cycles, in terms of the two claim instants. */
  lemma NextClaimIsLate(db: Db, es: seq<Event>, id: int, a: nat, start: int, e: Event)
    requires Inv(db) && Run(db, es + [e]) && id in db.rows
    requires db.rows[id].status == Running && db.rows[id].attempts == a + 1
    requires db.rows[id].heartbeatAt == Some(start)
    requires NoReportedFailure(Letters(db, es, id))
    requires e.Claim? && id in e.picked
    ensures var k := Exec(db, es + [e]).rows[id].attempts - (a + 1);
            k >= 1 && e.at > start + OrphanDelay(a, k)
  {
    RunPrefix(db, es, e);
    PoisonSpacing(db, es, id, a, start);
    InvRun(db, es);
    RowStep(Exec(db, es), e, id);
  }

  /** While nobody claims it, a pending task keeps its run time. */
  lemma {:induction false} PendingWaits(db: Db, es: seq<Event>, id: int)
    requires Inv(db) && Run(db, es) && id in db.rows && db.rows[id].status == Pending
    requires id in Exec(db, es).rows ==> Exec(db, es).rows[id].attempts == db.rows[id].attempts
    ensures id in Exec(db, es).rows
    ensures Exec(db, es).rows[id] == db.rows[id] || Exec(db, es).rows[id].status == Cancelled
  {
    AttemptsGrow(db, es, id);
    if es != [] {
      var front, e := es[..|es| - 1], es[|es| - 1];
      AttemptsGrow(db, front, id);
      InvRun(db, front);
      AccountingStep(Exec(db, front), e, id);
      PendingWaits(db, front, id);
      RowStep(Exec(db, front), e, id);
    }
  }

  /** The next claim of a pending task reads a clock not before its run time. */
  lemma NextClaimWaits(db: Db, es: seq<Event>, id: int, e: Event)
    requires Inv(db) && id in db.rows && db.rows[id].status == Pending
    requires Run(db, es + [e]) && e.Claim? && id in e.picked
    requires id in Exec(db, es).rows ==> Exec(db, es).rows[id].attempts == db.rows[id].attempts
    ensures e.at >= db.rows[id].runAt
  {
    RunPrefix(db, es, e);
    PendingWaits(db, es, id);
    ClaimInRun(db, es, e, id);
  }

  /** The claim after a recovery is at least the whole ceiling later than the sweep, however late
      the sweep itself came. */
  lemma ClaimAfterSweep(db: Db, es: seq<Event>, id: int, e: Event)
    requires Inv(db) && id in db.rows && Silent(db.rows[id], db.now) && db.rows[id].attempts < db.rows[id].maxAttempts
    requires forall i | i in db.rows :: !(Silent(db.rows[i], db.now) && Unbounded(db.rows[i]))
    requires Run(Next(db, Recover), es + [e]) && e.Claim? && id in e.picked
    requires var before := Exec(Next(db, Recover), es);
             id in before.rows ==> before.rows[id].attempts == db.rows[id].attempts
    ensures (e.at - db.now) as real >= DEFAULT_CONFIG.Ceiling(db.rows[id].attempts) * 1000000.0
  {
    InvStep(db, Recover);
    SweepEffect(db, id);
    NextClaimWaits(Next(db, Recover), es, id, e);
  }

  // ----- stable keys -----

  /** Once a key is bound to a row, in every later table that row, and no other, holds it,
      whatever status it has reached; so no later insert under the key adds a row. */
  lemma StableKey(db: Db, es: seq<Event>, id: int, sub: Submission)
    requires Inv(db) && Run(db, es) && id in db.rows
    requires HoldsKey(db.rows[id], sub.queue, sub.key)
    ensures var later := Exec(db, es);
            id in later.rows &&
            (forall other | other in later.rows :: HoldsKey(later.rows[other], sub.queue, sub.key) <==> other == id) &&
            Inserted(later, sub).rows == later.rows
  {
    RunGrows(db, es, id);
    InvRun(db, es);
    var later := Exec(db, es);
    assert HoldsKey(later.rows[id], sub.queue, sub.key);
    forall other | other in later.rows && HoldsKey(later.rows[other], sub.queue, sub.key)
      ensures other == id
    {
      assert HoldsKey(later.rows[other], later.rows[id].queue, later.rows[id].key);
    }
  }
}
