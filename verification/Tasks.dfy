// The tasks table and the effect of every SQL statement that changes it.
//
// One `Event` is one committed statement. `Next` gives the table after it. An
// UPDATE ... WHERE is a function of one row (`NextRow`) applied to every row, which is
// what lets the lemmas about a whole run speak about one row at a time.
module Tasks {
  import opened Wrappers
  import opened Retry

  datatype Status = Pending | Running | Succeeded | Failed | Dead | Cancelled {
    predicate Terminal() {
      Succeeded? || Dead? || Cancelled?
    }
  }

  datatype Task = Task(
    id: int,
    queue: string,
    handler: string,
    payload: string,
    priority: int,
    status: Status,
    runAt: int,
    attempts: nat,
    maxAttempts: int,
    claimedBy: Option<string>,
    heartbeatAt: Option<int>,
    key: Option<string>,
    scheduleId: Option<int>,
    lastError: Option<string>,
    createdAt: int)
  {
    predicate Due(now: int) {
      status == Pending && runAt <= now
    }

    predicate Exhausted() {
      attempts >= maxAttempts
    }

    predicate OwnedBy(worker: string) {
      claimedBy == Some(worker)
    }

    /** The sweeper's WHERE clause: running and silent for more than 90 seconds. */
    predicate Expired(now: int) {
      status == Running && heartbeatAt.Some? && heartbeatAt.value < now - HEARTBEAT_TTL
    }

    /** The heartbeat's WHERE clause. */
    predicate BeatBy(worker: string, ids: seq<int>) {
      id in ids && OwnedBy(worker) && status == Running
    }

    /** power(2, attempts) * 5 is evaluated, and does not fit a double. */
    predicate Overflows() {
      !Exhausted() && SqlDelay(attempts).None?
    }
  }

  // The literal in the sweeper's statement; no configuration value reaches it.
  const HEARTBEAT_TTL: int := 90 * SECOND

  const ORPHANED := "orphaned: heartbeat expired"

  /** What a client asks Enqueue for. None stands for a zero run time or a nil pointer. */
  datatype Submission = Submission(
    queue: string,
    handler: string,
    payload: Option<string>,
    priority: int,
    runAt: Option<int>,
    maxAttempts: int,
    key: Option<string>,
    scheduleId: Option<int>)

  type Rows = map<int, Task>

  datatype Db = Db(rows: Rows, nextId: int, now: int)

  /** A clock reading or one committed statement. A rollback is an aborted bulk insert, of
      which only the consumed sequence values remain. */
  datatype Event =
    | Tick(to: int)
    | Insert(sub: Submission)
    | Rollback(burned: nat)
    | Claim(worker: string, queue: string, limit: nat, at: int, picked: seq<int>)
    | Heartbeat(worker: string, ids: seq<int>)
    | Complete(worker: string, id: int)
    | Fail(worker: string, id: int, jitter: real, message: string)
    | Cancel(id: int)
    | Recover

  // ----- one row -----

  function Claimed(t: Task, worker: string, at: int): Task {
    t.(status := Running, claimedBy := Some(worker), heartbeatAt := Some(at), attempts := t.attempts + 1)
  }

  function Completed(t: Task): Task {
    t.(status := Succeeded, claimedBy := None, heartbeatAt := None)
  }

  function Released(t: Task, now: int, jitter: real, message: string): Task
    requires 0.0 <= jitter < 1.0
  {
    t.(status := if t.Exhausted() then Dead else Pending,
       runAt := if t.Exhausted() then t.runAt else now + Jittered(jitter, t.attempts),
       claimedBy := None,
       heartbeatAt := None,
       lastError := Some(message))
  }

  function Recovered(t: Task, now: int): Task {
    t.(status := if t.Exhausted() then Dead else Pending,
       runAt := if t.Exhausted() then t.runAt else now + SqlCeiling(t.attempts),
       claimedBy := None,
       lastError := Some(ORPHANED))
  }

  /** The WHERE clause of the statement behind `e`, on one row. */
  predicate Matches(t: Task, e: Event, now: int) {
    match e
    case Claim(_, _, _, _, picked) => t.id in picked
    case Heartbeat(worker, ids) => t.BeatBy(worker, ids)
    case Complete(worker, id) => t.id == id && t.OwnedBy(worker)
    case Fail(worker, id, _, _) => t.id == id && t.OwnedBy(worker)
    case Cancel(id) => t.id == id && t.status == Pending
    case Recover => t.Expired(now)
    case _ => false
  }

  predicate ValidJitter(e: Event) {
    e.Fail? ==> 0.0 <= e.jitter < 1.0
  }

  /** The SET clause of the statement behind `e`, on one row. */
  function NextRow(t: Task, e: Event, now: int): Task
    requires ValidJitter(e)
  {
    if !Matches(t, e, now) then t else
    match e
    case Claim(worker, _, _, at, _) => Claimed(t, worker, at)
    case Heartbeat(_, _) => t.(heartbeatAt := Some(now))
    case Complete(_, _) => Completed(t)
    case Fail(_, _, jitter, message) => Released(t, now, jitter, message)
    case Cancel(_) => t.(status := Cancelled)
    case Recover => Recovered(t, now)
    case _ => t
  }

  // ----- the whole table -----

  /** The statement fails: one row it has to back off overflows the product. */
  predicate Errors(db: Db, e: Event) {
    (e.Recover? || e.Fail?) &&
    exists id | id in db.rows :: Matches(db.rows[id], e, db.now) && db.rows[id].Overflows()
  }

  /** The NOT NULL and CHECK constraints of the tasks table. */
  predicate Acceptable(sub: Submission) {
    sub.payload.Some? && sub.handler != "" && sub.queue != "" && sub.maxAttempts >= 0
  }

  predicate HoldsKey(t: Task, queue: string, key: Option<string>) {
    key.Some? && t.queue == queue && t.key == key
  }

  predicate KeyTaken(rows: Rows, queue: string, key: Option<string>) {
    exists id | id in rows :: HoldsKey(rows[id], queue, key)
  }

  function NewTask(sub: Submission, id: int, now: int): Task
    requires Acceptable(sub)
  {
    Task(id, sub.queue, sub.handler, sub.payload.value, sub.priority, Pending,
         if sub.runAt.Some? then sub.runAt.value else now,
         0,
         if sub.maxAttempts == 0 then 5 else sub.maxAttempts,
         None, None, sub.key, sub.scheduleId, None, now)
  }

  predicate Inserts(db: Db, sub: Submission) {
    Acceptable(sub) && !KeyTaken(db.rows, sub.queue, sub.key)
  }

  /** INSERT ... ON CONFLICT DO NOTHING. The id sequence advances whatever the outcome. */
  function Inserted(db: Db, sub: Submission): Db {
    db.(rows := if Inserts(db, sub) then db.rows[db.nextId := NewTask(sub, db.nextId, db.now)] else db.rows,
        nextId := db.nextId + 1)
  }

  function Updated(db: Db, e: Event): Db
    requires ValidJitter(e)
  {
    db.(rows := map id | id in db.rows :: NextRow(db.rows[id], e, db.now))
  }

  function Next(db: Db, e: Event): Db
    requires ValidJitter(e)
  {
    match e
    case Tick(to) => db.(now := to)
    case Insert(sub) => Inserted(db, sub)
    case Rollback(burned) => db.(nextId := db.nextId + burned)
    case _ => if Errors(db, e) then db else Updated(db, e)
  }

  /** The claim statement may take row `id`: it is pending and due at the statement's clock. */
  predicate Candidate(rows: Rows, queue: string, at: int, id: int) {
    id in rows && rows[id].queue == queue && rows[id].Due(at)
  }

  predicate Distinct(ids: seq<int>) {
    forall i, j | 0 <= i < j < |ids| :: ids[i] != ids[j]
  }

  /** What the database may do next. A claim reads its clock when its transaction
      starts, so `at` may lie behind the clock at its commit. */
  predicate Enabled(db: Db, e: Event) {
    match e
    case Tick(to) => db.now <= to
    case Claim(_, queue, limit, at, picked) =>
      at <= db.now && |picked| <= limit && Distinct(picked) &&
      forall i | 0 <= i < |picked| :: Candidate(db.rows, queue, at, picked[i])
    case Fail(_, _, jitter, _) => 0.0 <= jitter < 1.0
    case _ => true
  }

  // ----- which rows a claim takes -----

  /** ORDER BY priority DESC, run_at. */
  predicate Outranks(t: Task, u: Task) {
    t.priority > u.priority || (t.priority == u.priority && t.runAt < u.runAt)
  }

  /** The selection an undisturbed claim must make among the candidates not locked by others:
      sorted, within the limit, and nothing left behind while there is room, nor anything
      that outranks a row taken. */
  ghost predicate IsSelection(rows: Rows, queue: string, at: int, limit: nat, locked: set<int>, picked: seq<int>) {
    && |picked| <= limit
    && Distinct(picked)
    && (forall i | 0 <= i < |picked| :: Candidate(rows, queue, at, picked[i]) && picked[i] !in locked)
    && (forall i, j | 0 <= i < j < |picked| :: !Outranks(rows[picked[j]], rows[picked[i]]))
    && (forall id | Candidate(rows, queue, at, id) && id !in locked && id !in picked ::
          |picked| == limit && forall i | 0 <= i < |picked| :: !Outranks(rows[id], rows[picked[i]]))
  }

  // ----- runs -----

  function Init(now: int): Db {
    Db(map[], 1, now)
  }

  function Exec(db: Db, es: seq<Event>): Db
    requires forall e | e in es :: ValidJitter(e)
  {
    if es == [] then db else Next(Exec(db, es[..|es| - 1]), es[|es| - 1])
  }

  predicate Run(db: Db, es: seq<Event>) {
    (forall e | e in es :: ValidJitter(e)) &&
    (es == [] || (Run(db, es[..|es| - 1]) && Enabled(Exec(db, es[..|es| - 1]), es[|es| - 1])))
  }

  /** Everything a run that starts from an empty table can reach. */
  ghost predicate Reachable(db: Db) {
    exists t0: int, es :: Run(Init(t0), es) && Exec(Init(t0), es) == db
  }

  lemma RunPrefix(db: Db, es: seq<Event>, e: Event)
    ensures Run(db, es + [e]) <==>
            Run(db, es) && ValidJitter(e) && Enabled(Exec(db, es), e)
    ensures Run(db, es + [e]) ==> Exec(db, es + [e]) == Next(Exec(db, es), e)
  {
    var all := es + [e];
    assert all[..|all| - 1] == es && all[|all| - 1] == e;
    if Run(db, es) && ValidJitter(e) {
      forall x | x in all ensures ValidJitter(x) {
        assert x in es || x == e;
      }
    }
  }

  lemma {:induction false} RunConcat(db: Db, xs: seq<Event>, ys: seq<Event>)
    requires Run(db, xs)
    requires Run(Exec(db, xs), ys)
    ensures Run(db, xs + ys)
    ensures Exec(db, xs + ys) == Exec(Exec(db, xs), ys)
    decreases |ys|
  {
    if ys == [] {
      assert xs + ys == xs;
    } else {
      var front, e := ys[..|ys| - 1], ys[|ys| - 1];
      RunConcat(db, xs, front);
      RunPrefix(db, xs + front, e);
      assert xs + ys == (xs + front) + [e];
    }
  }

  // ----- the table-wide invariant -----

  /** What no single statement states: the safety argument of Complete, Fail and Claim. */
  ghost predicate RowOk(t: Task, now: int) {
    && t.maxAttempts > 0
    && t.attempts <= t.maxAttempts
    && t.status != Failed
    && (t.status == Running <==> t.claimedBy.Some?)
    && (t.status == Running ==> t.heartbeatAt.Some?)
    && (t.heartbeatAt.Some? ==> t.heartbeatAt.value <= now)
    && (t.status == Running || t.status == Succeeded ==> t.attempts >= 1)
    && (t.status == Pending || t.status == Cancelled ==> t.attempts < t.maxAttempts)
    && (t.status == Dead ==> t.attempts == t.maxAttempts)
  }

  ghost predicate UniqueKeys(rows: Rows) {
    forall a, b | a in rows && b in rows && HoldsKey(rows[a], rows[b].queue, rows[b].key) :: a == b
  }

  ghost predicate Inv(db: Db) {
    && (forall id | id in db.rows :: id < db.nextId && db.rows[id].id == id && RowOk(db.rows[id], db.now))
    && UniqueKeys(db.rows)
  }

  /** Columns that no statement ever writes again. */
  ghost predicate SameIdentity(t: Task, u: Task) {
    t.id == u.id && t.queue == u.queue && t.handler == u.handler && t.payload == u.payload &&
    t.priority == u.priority && t.maxAttempts == u.maxAttempts && t.key == u.key &&
    t.scheduleId == u.scheduleId && t.createdAt == u.createdAt
  }

  /** A table that agrees row by row with the statement's effect is the table after it. */
  lemma UpdatedBy(db: Db, e: Event, rows: Rows)
    requires ValidJitter(e) && !e.Tick? && !e.Insert? && !e.Rollback?
    requires rows.Keys == db.rows.Keys
    requires forall id | id in rows ::
               rows[id] == if Errors(db, e) then db.rows[id] else NextRow(db.rows[id], e, db.now)
    ensures db.(rows := rows) == Next(db, e)
  {
    assert forall id | id in rows.Keys :: rows[id] == Next(db, e).rows[id];
  }

  lemma RowStep(db: Db, e: Event, id: int)
    requires Inv(db) && ValidJitter(e) && Enabled(db, e) && id in db.rows
    ensures id in Next(db, e).rows
    ensures SameIdentity(db.rows[id], Next(db, e).rows[id])
    ensures RowOk(Next(db, e).rows[id], Next(db, e).now)
    ensures Next(db, e).rows[id] ==
            if Errors(db, e) then db.rows[id] else NextRow(db.rows[id], e, db.now)
    ensures e.Claim? && id in e.picked ==> Candidate(db.rows, e.queue, e.at, id)
  {
    if e.Claim? && id in e.picked {
      assert Candidate(db.rows, e.queue, e.at, id);
    }
  }

  /** Every statement keeps the table-wide invariant. */
  lemma InvStep(db: Db, e: Event)
    requires Inv(db) && ValidJitter(e) && Enabled(db, e)
    ensures Inv(Next(db, e))
  {
    var after := Next(db, e);
    forall id | id in after.rows
      ensures id < after.nextId && after.rows[id].id == id && RowOk(after.rows[id], after.now)
    {
      if id in db.rows {
        RowStep(db, e, id);
      }
    }
    if e.Insert? && Inserts(db, e.sub) {
      assert forall a | a in db.rows :: !HoldsKey(db.rows[a], e.sub.queue, e.sub.key);
    }
    forall a, b | a in after.rows && b in after.rows && HoldsKey(after.rows[a], after.rows[b].queue, after.rows[b].key)
      ensures a == b
    {
      if a in db.rows { RowStep(db, e, a); }
      if b in db.rows { RowStep(db, e, b); }
    }
  }

  lemma {:induction false} InvRun(db: Db, es: seq<Event>)
    requires Inv(db) && Run(db, es)
    ensures Inv(Exec(db, es))
  {
    if es != [] {
      InvRun(db, es[..|es| - 1]);
      InvStep(Exec(db, es[..|es| - 1]), es[|es| - 1]);
    }
  }

  /** The invariant holds in every reachable table. */
  lemma ReachableInv(db: Db)
    requires Reachable(db)
    ensures Inv(db)
  {
    var t0: int, es :| Run(Init(t0), es) && Exec(Init(t0), es) == db;
    InvRun(Init(t0), es);
  }

  /** Rows are never deleted and the clock never runs back. */
  lemma {:induction false} RunGrows(db: Db, es: seq<Event>, id: int)
    requires Inv(db) && Run(db, es) && id in db.rows
    ensures id in Exec(db, es).rows
    ensures SameIdentity(db.rows[id], Exec(db, es).rows[id])
    ensures db.now <= Exec(db, es).now
  {
    if es != [] {
      var front := es[..|es| - 1];
      RunGrows(db, front, id);
      InvRun(db, front);
      RowStep(Exec(db, front), es[|es| - 1], id);
    }
  }
}
