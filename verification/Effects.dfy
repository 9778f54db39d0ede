// What every statement does to the table, column by column. These laws do not use the
// functions that define the statements; they are what the definitions must amount to.
module Effects {
  import opened Wrappers
  import opened Retry
  import opened Tasks

  // ----- one row before and after -----

  /** A claim takes a due pending row of its queue and stamps it. */
  predicate ClaimedTo(t: Task, u: Task, queue: string, worker: string, at: int) {
    t.queue == queue && t.status == Pending && t.runAt <= at &&
    u == t.(status := Running, claimedBy := Some(worker), heartbeatAt := Some(at), attempts := t.attempts + 1)
  }

  predicate BeatTo(t: Task, u: Task, worker: string, at: int) {
    t.status == Running && t.claimedBy == Some(worker) && u == t.(heartbeatAt := Some(at))
  }

  predicate CompletedTo(t: Task, u: Task, worker: string) {
    t.claimedBy == Some(worker) && u == t.(status := Succeeded, claimedBy := None, heartbeatAt := None)
  }

  /** A failure keeps the attempts and records the message. With attempts left the task waits a
      fraction of the ceiling, rounded down to a microsecond; without, it is dead where it was. */
  predicate FailedTo(t: Task, u: Task, worker: string, message: string, jitter: real, now: int) {
    t.claimedBy == Some(worker) &&
    u == t.(status := u.status, runAt := u.runAt, claimedBy := None, heartbeatAt := None, lastError := Some(message)) &&
    if t.attempts < t.maxAttempts then
      u.status == Pending &&
      (u.runAt - now) as real <= jitter * (DEFAULT_CONFIG.Ceiling(t.attempts) * 1000000.0) < (u.runAt - now + 1) as real
    else
      u.status == Dead && u.runAt == t.runAt
  }

  /** Running, and silent for more than 90 seconds. */
  predicate Silent(t: Task, now: int) {
    t.status == Running && t.heartbeatAt.Some? && t.heartbeatAt.value < now - 90_000_000
  }

  /** A sweep keeps attempts and heartbeat and records why. With attempts left the task waits the
      whole ceiling from the sweep on; without, it is dead where it was. */
  predicate SweptTo(t: Task, u: Task, now: int) {
    u == t.(status := u.status, runAt := u.runAt, claimedBy := None,
            lastError := Some("orphaned: heartbeat expired")) &&
    if t.attempts < t.maxAttempts then
      u.status == Pending && (u.runAt - now) as real == DEFAULT_CONFIG.Ceiling(t.attempts) * 1000000.0
    else
      u.status == Dead && u.runAt == t.runAt
  }

  /** The backoff of a failed or swept task cannot be computed. */
  predicate Unbounded(t: Task) {
    t.attempts < t.maxAttempts && t.attempts >= 1022
  }

  predicate Storable(sub: Submission) {
    sub.queue != "" && sub.handler != "" && sub.payload.Some? && sub.maxAttempts >= 0
  }

  /** The row of a new task: what was submitted, with the two defaults of the store. */
  predicate FreshRow(t: Task, sub: Submission, id: int, now: int) {
    t.id == id && t.queue == sub.queue && t.handler == sub.handler && Some(t.payload) == sub.payload &&
    t.priority == sub.priority && t.key == sub.key && t.scheduleId == sub.scheduleId &&
    (sub.runAt.Some? ==> t.runAt == sub.runAt.value) && (sub.runAt.None? ==> t.runAt == now) &&
    (sub.maxAttempts != 0 ==> t.maxAttempts == sub.maxAttempts) && (sub.maxAttempts == 0 ==> t.maxAttempts == 5) &&
    t.status == Pending && t.attempts == 0 && t.createdAt == now &&
    t.claimedBy.None? && t.heartbeatAt.None? && t.lastError.None?
  }

  /** A row under the key already stands in the queue. */
  predicate UnderKey(rows: Rows, queue: string, key: Option<string>) {
    key.Some? && exists id | id in rows :: rows[id].queue == queue && rows[id].key == key
  }

  // ----- the choice of a claim -----

  /** t comes no later than u: higher priority first, then earlier run time. */
  predicate NoLater(t: Task, u: Task) {
    t.priority > u.priority || (t.priority == u.priority && t.runAt <= u.runAt)
  }

  predicate MayTake(t: Task, queue: string, at: int) {
    t.queue == queue && t.status == Pending && t.runAt <= at
  }

  /** The best takeable rows of the queue but those in `passed`, best first, as many as the limit
      admits. */
  ghost predicate TakesBest(rows: Rows, queue: string, at: int, limit: nat, passed: set<int>, picked: seq<int>) {
    && |picked| <= limit
    && (forall i, j | 0 <= i < j < |picked| :: picked[i] != picked[j])
    && (forall i | 0 <= i < |picked| ::
          picked[i] in rows && MayTake(rows[picked[i]], queue, at) && picked[i] !in passed)
    && (forall i, j | 0 <= i < j < |picked| :: NoLater(rows[picked[i]], rows[picked[j]]))
    && (forall id | id in rows && MayTake(rows[id], queue, at) && id !in passed && id !in picked ::
          |picked| == limit && forall i | 0 <= i < |picked| :: NoLater(rows[picked[i]], rows[id]))
  }

  lemma SelectionTakesBest(rows: Rows, queue: string, at: int, limit: nat, passed: set<int>, picked: seq<int>)
    requires IsSelection(rows, queue, at, limit, passed, picked)
    ensures TakesBest(rows, queue, at, limit, passed, picked)
  {
    forall i, j | 0 <= i < j < |picked| ensures NoLater(rows[picked[i]], rows[picked[j]]) {
      assert !Outranks(rows[picked[j]], rows[picked[i]]);
    }
    forall id | id in rows && MayTake(rows[id], queue, at) && id !in passed && id !in picked
      ensures |picked| == limit
      ensures forall i | 0 <= i < |picked| :: NoLater(rows[picked[i]], rows[id])
    {
      assert Candidate(rows, queue, at, id);
      forall i | 0 <= i < |picked| ensures NoLater(rows[picked[i]], rows[id]) {
        assert !Outranks(rows[id], rows[picked[i]]);
      }
    }
  }

  // ----- the statements -----

  lemma ClaimEffect(db: Db, e: Event, id: int)
    requires Inv(db) && e.Claim? && Enabled(db, e) && id in db.rows
    ensures id in Next(db, e).rows
    ensures if id in e.picked then ClaimedTo(db.rows[id], Next(db, e).rows[id], e.queue, e.worker, e.at)
            else Next(db, e).rows[id] == db.rows[id]
  {
    RowStep(db, e, id);
  }

  /** Whoever claims in whatever run, and however late it commits, takes only due pending rows of
      the queue it asked for. */
  lemma ClaimInRun(db: Db, es: seq<Event>, e: Event, id: int)
    requires Inv(db) && Run(db, es + [e]) && e.Claim? && id in e.picked
    ensures id in Exec(db, es).rows && id in Exec(db, es + [e]).rows && e.at <= Exec(db, es).now
    ensures ClaimedTo(Exec(db, es).rows[id], Exec(db, es + [e]).rows[id], e.queue, e.worker, e.at)
  {
    RunPrefix(db, es, e);
    InvRun(db, es);
    var i :| 0 <= i < |e.picked| && e.picked[i] == id;
    assert Candidate(Exec(db, es).rows, e.queue, e.at, e.picked[i]);
    ClaimEffect(Exec(db, es), e, id);
  }

  lemma HeartbeatEffect(db: Db, worker: string, ids: seq<int>, id: int)
    requires Inv(db) && id in db.rows
    ensures id in Next(db, Heartbeat(worker, ids)).rows
    ensures if id in ids && db.rows[id].claimedBy == Some(worker) then
              BeatTo(db.rows[id], Next(db, Heartbeat(worker, ids)).rows[id], worker, db.now)
            else Next(db, Heartbeat(worker, ids)).rows[id] == db.rows[id]
  {
    RowStep(db, Heartbeat(worker, ids), id);
  }

  lemma CompleteEffect(db: Db, worker: string, task: int, id: int)
    requires Inv(db) && id in db.rows
    ensures id in Next(db, Complete(worker, task)).rows
    ensures if id == task && db.rows[id].claimedBy == Some(worker) then
              CompletedTo(db.rows[id], Next(db, Complete(worker, task)).rows[id], worker)
            else Next(db, Complete(worker, task)).rows[id] == db.rows[id]
  {
    RowStep(db, Complete(worker, task), id);
  }

  lemma FractionOf(jitter: real, a: nat)
    requires 0.0 <= jitter < 1.0
    ensures var d := Jittered(jitter, a);
            d as real <= jitter * (DEFAULT_CONFIG.Ceiling(a) * 1000000.0) < (d + 1) as real
  {
    CeilingMeans(a);
  }

  lemma CeilingMeans(a: nat)
    ensures SqlCeiling(a) as real == DEFAULT_CONFIG.Ceiling(a) * 1000000.0
  {
    assert Pow2(a) as real * 5.0 == (Pow2(a) * 5) as real;
  }

  lemma FailEffect(db: Db, worker: string, task: int, jitter: real, message: string, id: int)
    requires Inv(db) && id in db.rows && task in db.rows && 0.0 <= jitter < 1.0 && !Unbounded(db.rows[task])
    ensures var after := Next(db, Fail(worker, task, jitter, message));
            id in after.rows &&
            if id == task && db.rows[id].claimedBy == Some(worker) then
              FailedTo(db.rows[id], after.rows[id], worker, message, jitter, db.now)
            else after.rows[id] == db.rows[id]
  {
    RowStep(db, Fail(worker, task, jitter, message), id);
    FractionOf(jitter, db.rows[id].attempts);
  }

  lemma CancelEffect(db: Db, task: int, id: int)
    requires Inv(db) && id in db.rows
    ensures id in Next(db, Cancel(task)).rows
    ensures Next(db, Cancel(task)).rows[id] ==
            if id == task && db.rows[id].status == Pending then db.rows[id].(status := Cancelled) else db.rows[id]
  {
    RowStep(db, Cancel(task), id);
  }

  /** The sweep fails as a whole if and only if one silent row is out of bounds. */
  lemma SweepFailsIff(db: Db)
    requires Inv(db)
    ensures Errors(db, Recover) <==> exists id | id in db.rows :: Silent(db.rows[id], db.now) && Unbounded(db.rows[id])
  {
    assert forall id | id in db.rows ::
        Matches(db.rows[id], Recover, db.now) == Silent(db.rows[id], db.now) &&
        db.rows[id].Overflows() == Unbounded(db.rows[id]);
  }

  lemma SweepEffect(db: Db, id: int)
    requires Inv(db) && id in db.rows
    requires forall i | i in db.rows :: !(Silent(db.rows[i], db.now) && Unbounded(db.rows[i]))
    ensures id in Next(db, Recover).rows
    ensures if Silent(db.rows[id], db.now) then SweptTo(db.rows[id], Next(db, Recover).rows[id], db.now)
            else Next(db, Recover).rows[id] == db.rows[id]
  {
    SweepFailsIff(db);
    RowStep(db, Recover, id);
    CeilingMeans(db.rows[id].attempts);
  }

  /** An insert adds one row under the next id if the submission is storable and its key free. */
  lemma InsertEffect(db: Db, sub: Submission)
    requires Inv(db)
    ensures var after := Next(db, Insert(sub)).rows;
            (forall id | id in db.rows :: id in after && after[id] == db.rows[id]) &&
            if Storable(sub) && !UnderKey(db.rows, sub.queue, sub.key) then
              after.Keys == db.rows.Keys + {db.nextId} && FreshRow(after[db.nextId], sub, db.nextId, db.now)
            else after == db.rows
  {
    KeyMeans(db.rows, sub.queue, sub.key);
  }

  lemma KeyMeans(rows: Rows, queue: string, key: Option<string>)
    ensures KeyTaken(rows, queue, key) <==> UnderKey(rows, queue, key)
  {
    if UnderKey(rows, queue, key) {
      var id :| id in rows && rows[id].queue == queue && rows[id].key == key;
      assert HoldsKey(rows[id], queue, key);
    }
    if KeyTaken(rows, queue, key) {
      var id :| id in rows && HoldsKey(rows[id], queue, key);
    }
  }
}
