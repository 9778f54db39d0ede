// What the fence of Complete and Fail, claimed_by alone, does and does not promise: a report
// by a worker that has claimed the task again ends the newer attempt.
module Fencing {
  import opened Wrappers
  import Retry
  import opened Tasks
  import opened Effects
  import opened Worker
  import opened DoubleExecution
  import opened Shutdown

  /** The report of dispatch `n` takes effect on its row. */
  ghost predicate Effective(db: Db, w: string, wk: Worker, n: nat, report: Report) {
    InStage(wk, n, Executing) && Owns(db, w, wk.dispatches[n].grant.id) &&
    var e := EventOf(w, wk, Finish(n, report));
    e.Some? && ValidJitter(e.value) && !Errors(db, e.value)
  }

  /** The attempt a row is at, as a grant. */
  function Current(db: Db, id: int): Grant
    requires id in db.rows
  {
    Grant(id, db.rows[id].attempts)
  }

  /** An effective report ends the attempt the row is at, whichever dispatch makes it; it ends
      the dispatch's own attempt if and only if the row has not moved on to a later one. */
  lemma ReportEndsOwnIff(db: Db, w: string, wk: Worker, n: nat, report: Report)
    requires Inv(db) && CanMove(db, w, wk, Finish(n, report)) && Effective(db, w, wk, n, report)
    ensures var g := wk.dispatches[n].grant;
            var db' := TableAfter(db, w, wk, Finish(n, report));
            Holds(db, w, Current(db, g.id)) && !Holds(db', w, Current(db, g.id)) &&
            db'.rows[g.id].attempts == db.rows[g.id].attempts &&
            db'.rows[g.id].status != Running &&
            (Holds(db, w, g) && !Holds(db', w, g) <==> db.rows[g.id].attempts == g.epoch)
  {
    RowStep(db, EventOf(w, wk, Finish(n, report)).value, wk.dispatches[n].grant.id);
  }

  /** What a report says on the row of its task, if the row is the worker's: success, or a
      failure with its message; and nothing anywhere else, nor if it is not written. */
  lemma ReportSays(db: Db, w: string, wk: Worker, n: nat, report: Report, id: int)
    requires Inv(db) && CanMove(db, w, wk, Finish(n, report)) && id in db.rows
    requires report.Failure? ==> !Unbounded(db.rows[id])
    ensures var u := TableAfter(db, w, wk, Finish(n, report)).rows;
            id in u &&
            if id == wk.dispatches[n].grant.id && db.rows[id].claimedBy == Some(w) && !report.Unwritten? then
              match report
              case Success => CompletedTo(db.rows[id], u[id], w)
              case Failure(jitter, message) => FailedTo(db.rows[id], u[id], w, message, jitter, db.now)
              case Unwritten => true
            else u[id] == db.rows[id]
  {
    var task := wk.dispatches[n].grant.id;
    match report {
      case Success => CompleteEffect(db, w, task, id);
      case Failure(jitter, message) =>
        if task == id {
          FailEffect(db, w, task, jitter, message, id);
        } else {
          RowStep(db, Fail(w, task, jitter, message), id);
        }
      case Unwritten =>
    }
  }

  /** Under the hypotheses of zero double execution every effective report ends the dispatch's
      own attempt: in every such run of a fleet from the empty system, a dispatch still
      executing either owns its claim or its task is dead and its report void. */
  lemma ReportsEndTheirOwn(t0: int, ss: seq<FleetStep>, w: string, n: nat, report: Report)
    requires FleetRun(Fleet(Init(t0), map[]), ss) && TimelyRun(Fleet(Init(t0), map[]), ss)
    requires var f := FleetAfter(Fleet(Init(t0), map[]), ss);
             w in f.workers && Effective(f.db, w, f.workers[w], n, report)
    ensures var f := FleetAfter(Fleet(Init(t0), map[]), ss);
            Holds(f.db, w, f.workers[w].dispatches[n].grant)
  {
    FleetRunOk(Fleet(Init(t0), map[]), ss);
    var f := FleetAfter(Fleet(Init(t0), map[]), ss);
    var g := f.workers[w].dispatches[n].grant;
    assert Executes(f.workers[w], n, g);
    assert LiveGrant(f.workers[w], g);
  }

  // ----- without them -----

  /** Dispatch `n` of an earlier attempt reports success, and the table marks the attempt that
      dispatch `m` is executing as succeeded. */
  ghost predicate Misreports(l: Local, w: string, id: int, n: nat, m: nat) {
    && InStage(l.wk, n, Executing) && InStage(l.wk, m, Executing) && CanTake(l, w, Own(Finish(n, Success)))
    && l.wk.dispatches[n].grant.id == id && l.wk.dispatches[m].grant == Grant(id, l.wk.dispatches[m].grant.epoch)
    && l.wk.dispatches[n].grant.epoch < l.wk.dispatches[m].grant.epoch
    && Holds(l.db, w, l.wk.dispatches[m].grant)
    && Take(l, w, Own(Finish(n, Success))).db.rows[id].status == Succeeded
    && Take(l, w, Own(Finish(n, Success))).db.rows[id].attempts == l.wk.dispatches[m].grant.epoch
  }

  ghost predicate CanMisreport(l: Local, w: string, id: int) {
    exists ss, n: nat, m: nat :: Takes(l, w, ss) && Misreports(Taken(l, w, ss), w, id, n, m)
  }

  lemma StepMisreports(l: Local, w: string, s: LocalStep, id: int)
    requires CanTake(l, w, s) && CanMisreport(Take(l, w, s), w, id)
    ensures CanMisreport(l, w, id)
  {
    var mid := Take(l, w, s);
    var ss, n: nat, m: nat :| Takes(mid, w, ss) && Misreports(Taken(mid, w, ss), w, id, n, m);
    TakesPrepend(l, w, s, ss);
  }

  /** The worker asks for work while the task its old dispatch still executes is pending. */
  lemma ReclaimMisreports(l: Local, w: string, n: nat, id: int)
    requires Inv(l.db) && l.wk.main.Asking? && l.wk.main.limit >= 1 && l.wk.slots < l.wk.cfg.concurrency
    requires InStage(l.wk, n, Executing) && l.wk.dispatches[n].grant.id == id && n != l.wk.nextDispatch
    requires Candidate(l.db.rows, l.wk.cfg.queue, l.db.now, id)
    requires l.wk.dispatches[n].grant.epoch <= l.db.rows[id].attempts
    ensures CanMisreport(l, w, id)
  {
    var granted := Own(Granted(l.db.now, [id]));
    var g := Grant(id, l.db.rows[id].attempts + 1);
    assert GrantsOf(l.db, [id]) == [g];
    TakeInv(l, w, granted);
    RowStep(l.db, EventOf(w, l.wk, granted.step).value, id);
    var l1 := Take(l, w, granted);
    assert l1.wk.main == Launching([g]);
    LaunchMisreports(l1, w, n, g);
    StepMisreports(l, w, granted, id);
  }

  lemma LaunchMisreports(l: Local, w: string, n: nat, g: Grant)
    requires Inv(l.db) && l.wk.main == Launching([g]) && l.wk.slots < l.wk.cfg.concurrency
    requires InStage(l.wk, n, Executing) && l.wk.dispatches[n].grant.id == g.id && n != l.wk.nextDispatch
    requires l.wk.dispatches[n].grant.epoch < g.epoch && Holds(l.db, w, g)
    ensures CanMisreport(l, w, g.id)
  {
    var l1 := Take(l, w, Own(Launch));
    RowStep(l.db, Complete(w, g.id), g.id);
    assert Takes(l1, w, []) && Taken(l1, w, []) == l1;
    assert Misreports(l1, w, g.id, n, l.wk.nextDispatch);
    assert CanMisreport(l1, w, g.id);
    StepMisreports(l, w, Own(Launch), g.id);
  }

  lemma AskingMisreports(l: Local, w: string, n: nat, id: int)
    requires Inv(l.db) && l.wk.main == Waiting && l.wk.cfg.claimBatch >= 1 && l.wk.slots < l.wk.cfg.concurrency
    requires InStage(l.wk, n, Executing) && l.wk.dispatches[n].grant.id == id && n != l.wk.nextDispatch
    requires Candidate(l.db.rows, l.wk.cfg.queue, l.db.now, id)
    requires l.wk.dispatches[n].grant.epoch <= l.db.rows[id].attempts
    ensures CanMisreport(l, w, id)
  {
    var l1 := Take(l, w, Own(FreeSlot));
    ReclaimMisreports(Take(l1, w, Own(Ask)), w, n, id);
    StepMisreports(l1, w, Own(Ask), id);
    StepMisreports(l, w, Own(FreeSlot), id);
  }

  /** A worker with a free slot whose executing claim is swept, with attempts left, can come to
      report the old handler's success for the newer attempt. */
  lemma SweptClaimMisreports(l: Local, w: string, n: nat, id: int)
    requires Inv(l.db) && l.wk.main == Waiting && l.wk.cfg.claimBatch >= 1 && l.wk.slots < l.wk.cfg.concurrency
    requires InStage(l.wk, n, Executing) && l.wk.dispatches[n].grant.id == id && n != l.wk.nextDispatch
    requires Holds(l.db, w, l.wk.dispatches[n].grant) && l.db.rows[id].queue == l.wk.cfg.queue
    requires l.db.rows[id].Expired(l.db.now) && !l.db.rows[id].Exhausted() && !Errors(l.db, Recover)
    ensures CanMisreport(l, w, id)
  {
    TakeInv(l, w, Env(Recover));
    RowStep(l.db, Recover, id);
    var l1 := Take(l, w, Env(Recover));
    var due := Env(Tick(l1.db.now + Retry.SqlCeiling(l.db.rows[id].attempts)));
    TakeInv(l1, w, due);
    AskingMisreports(Take(l1, w, due), w, n, id);
    StepMisreports(l1, w, due, id);
    StepMisreports(l, w, Env(Recover), id);
  }

  // ----- from the start -----

  lemma BusyMisreports(t: Task, now: int, cfg: Config, w: string)
    requires cfg.concurrency >= 2 && cfg.claimBatch >= 1 && cfg.queue == t.queue && RowOk(t, now)
    requires t.id == 1 && t.status == Running && t.OwnedBy(w) && t.attempts == 1 && !t.Exhausted()
    requires t.heartbeatAt == Some(now)
    ensures CanMisreport(Local(OneTask(t, now), BusyWaiting(cfg)), w, 1)
  {
    var l := Local(OneTask(t, now), BusyWaiting(cfg));
    var late := Env(Tick(now + 91 * Retry.SECOND));
    TakeInv(l, w, late);
    SweptClaimMisreports(Take(l, w, late), w, 0, 1);
    StepMisreports(l, w, late, 1);
  }

  lemma {:induction false} RunMisreports(l: Local, w: string, xs: seq<LocalStep>, id: int)
    requires Takes(l, w, xs) && CanMisreport(Taken(l, w, xs), w, id)
    ensures CanMisreport(l, w, id)
  {
    if xs != [] {
      StepMisreports(Taken(l, w, xs[..|xs| - 1]), w, xs[|xs| - 1], id);
      RunMisreports(l, w, xs[..|xs| - 1], id);
    }
  }

  /** From an empty table and a fresh worker with room for two, with any task that may be
      retried, and though no store call fails. */
  lemma MisreportFromTheStart(t0: int, sub: Submission, cfg: Config, w: string)
    requires Acceptable(sub) && sub.runAt == None && sub.maxAttempts != 1 && sub.queue == cfg.queue
    requires cfg.concurrency >= 2 && cfg.claimBatch >= 1
    ensures CanMisreport(Local(Init(t0), NewWorker(cfg)), w, 1)
  {
    var ss := LaunchFromTheStart(t0, sub, cfg, w);
    BusyMisreports(Claimed(NewTask(sub, 1, t0), w, t0), t0, cfg, w);
    RunMisreports(Local(Init(t0), NewWorker(cfg)), w, ss, 1);
  }
}
