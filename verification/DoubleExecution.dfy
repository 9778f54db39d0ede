// Zero double execution: workers with distinct identities, a sweeper, crashes, failed store
// calls, and clients, in any interleaving.
module DoubleExecution {
  import opened Wrappers
  import Retry
  import opened Tasks
  import opened Worker

  // ----- one worker -----

  /** Worker `w` still owns the claim `g`. */
  predicate Holds(db: Db, w: string, g: Grant) {
    g.id in db.rows && db.rows[g.id].OwnedBy(w) && db.rows[g.id].attempts == g.epoch
  }

  /** The task is terminal: it was swept or released on its last attempt, and nobody can claim
      it again. */
  predicate Spent(db: Db, g: Grant) {
    g.id in db.rows && db.rows[g.id].status.Terminal()
  }

  predicate Safe(db: Db, w: string, g: Grant) {
    Holds(db, w, g) || Spent(db, g)
  }

  /** Claims granted to the worker whose handler has not reported yet: those of the batch
      being launched and those of the executing dispatches. */
  predicate LiveGrant(wk: Worker, g: Grant) {
    (wk.main.Launching? && g in wk.main.batch) ||
    exists n | n in wk.dispatches :: Executes(wk, n, g)
  }

  predicate Executes(wk: Worker, n: nat, g: Grant) {
    InStage(wk, n, Executing) && wk.dispatches[n].grant == g
  }

  ghost predicate DistinctIds(batch: seq<Grant>) {
    forall i, j | 0 <= i < j < |batch| :: batch[i].id != batch[j].id
  }

  /** Every live grant is a claim the worker holds, or one that nobody can repeat, and no task
      is live twice. */
  ghost predicate LiveOk(db: Db, w: string, wk: Worker) {
    && (forall g | LiveGrant(wk, g) :: Safe(db, w, g))
    && (wk.main.Launching? ==> DistinctIds(wk.main.batch))
    && (wk.main.Launching? ==>
          forall i, n | 0 <= i < |wk.main.batch| && InStage(wk, n, Executing) ::
            wk.dispatches[n].grant.id != wk.main.batch[i].id)
    && (forall m, n | InStage(wk, m, Executing) && InStage(wk, n, Executing) && m != n ::
          wk.dispatches[m].grant.id != wk.dispatches[n].grant.id)
    && (forall n | n in wk.dispatches :: n < wk.nextDispatch)
  }

  /** The heartbeat hypothesis at a sweep: no live claim with attempts left has been silent for
      over 90 seconds. */
  ghost predicate Refreshed(db: Db, wk: Worker) {
    forall g | LiveGrant(wk, g) && g.id in db.rows :: !(db.rows[g.id].Expired(db.now) && !db.rows[g.id].Exhausted())
  }

  /** A held claim survives every statement of the environment but a sweep of an expired row. */
  lemma HoldsStep(db: Db, w: string, g: Grant, e: Event)
    requires Inv(db) && ValidJitter(e) && Enabled(db, e) && Foreign(e, w) && Holds(db, w, g)
    ensures Holds(Next(db, e), w, g) <==>
            !(e.Recover? && db.rows[g.id].Expired(db.now) && !Errors(db, e))
  {
    RowStep(db, e, g.id);
  }

  lemma SafeStep(db: Db, w: string, g: Grant, e: Event)
    requires Inv(db) && ValidJitter(e) && Enabled(db, e) && Foreign(e, w) && Safe(db, w, g)
    ensures Safe(Next(db, e), w, g) <==>
            !(e.Recover? && db.rows[g.id].Expired(db.now) && !db.rows[g.id].Exhausted() && !Errors(db, e))
  {
    RowStep(db, e, g.id);
  }

  lemma LiveEnv(db: Db, w: string, wk: Worker, e: Event)
    requires Inv(db) && LiveOk(db, w, wk)
    requires Foreign(e, w) && ValidJitter(e) && Enabled(db, e)
    requires e.Recover? ==> Refreshed(db, wk)
    ensures LiveOk(Next(db, e), w, wk)
  {
    forall g | LiveGrant(wk, g) ensures Safe(Next(db, e), w, g) {
      SafeStep(db, w, g, e);
    }
  }

  /** Exactly when a sweep is safe: it hands no live task to others if and only if the heartbeat
      hypothesis holds (or the whole statement fails). */
  lemma SweepSafeIff(db: Db, w: string, wk: Worker)
    requires Inv(db) && LiveOk(db, w, wk) && !Errors(db, Recover)
    ensures LiveOk(Next(db, Recover), w, wk) <==> Refreshed(db, wk)
  {
    forall g | LiveGrant(wk, g)
      ensures Safe(db, w, g)
      ensures Safe(Next(db, Recover), w, g) <==> !(db.rows[g.id].Expired(db.now) && !db.rows[g.id].Exhausted())
    {
      SafeStep(db, w, g, Recover);
    }
  }

  lemma OtherSafe(db: Db, w: string, g: Grant, id: int, e: Event)
    requires Inv(db) && ValidJitter(e) && Enabled(db, e) && Safe(db, w, g) && g.id != id
    requires e.Complete? || e.Fail? ==> e.id == id
    requires e.Heartbeat? || e.Complete? || e.Fail? || e.Claim?
    ensures Safe(Next(db, e), w, g)
  {
    RowStep(db, e, g.id);
  }

  lemma LiveFinish(db: Db, w: string, wk: Worker, n: nat, report: Report)
    requires Inv(db) && LiveOk(db, w, wk) && CanMove(db, w, wk, Finish(n, report))
    ensures LiveOk(TableAfter(db, w, wk, Finish(n, report)), w, Move(db, w, wk, Finish(n, report)))
  {
    var after := Move(db, w, wk, Finish(n, report));
    var e := EventOf(w, wk, Finish(n, report));
    forall g | LiveGrant(after, g) ensures Safe(TableAfter(db, w, wk, Finish(n, report)), w, g) {
      if exists m | m in after.dispatches :: Executes(after, m, g) {
        var m :| m in after.dispatches && Executes(after, m, g);
        assert Executes(wk, m, g) && m != n && InStage(wk, n, Executing) && InStage(wk, m, Executing);
      }
      assert LiveGrant(wk, g);
      assert g.id != wk.dispatches[n].grant.id;
      if e.Some? {
        OtherSafe(db, w, g, wk.dispatches[n].grant.id, e.value);
      }
    }
    assert forall m | InStage(after, m, Executing) ::
        InStage(wk, m, Executing) && after.dispatches[m] == wk.dispatches[m];
  }

  /** A claim takes none of the tasks being executed. */
  lemma ExecutingUnclaimed(db: Db, w: string, wk: Worker, step: Step, n: nat)
    requires Inv(db) && LiveOk(db, w, wk) && CanMove(db, w, wk, step) && InStage(wk, n, Executing)
    requires step.Granted? || step.ClaimError?
    ensures wk.dispatches[n].grant.id !in step.picked
    ensures Safe(TableAfter(db, w, wk, step), w, wk.dispatches[n].grant)
  {
    var g := wk.dispatches[n].grant;
    assert Executes(wk, n, g) && LiveGrant(wk, g);
    assert g.id !in step.picked;
    RowStep(db, EventOf(w, wk, step).value, g.id);
  }

  lemma LiveClaim(db: Db, w: string, wk: Worker, step: Step)
    requires Inv(db) && LiveOk(db, w, wk) && CanMove(db, w, wk, step)
    requires step.Granted? || step.ClaimError?
    ensures LiveOk(TableAfter(db, w, wk, step), w, Move(db, w, wk, step))
  {
    var e := EventOf(w, wk, step).value;
    var after := Move(db, w, wk, step);
    var db' := TableAfter(db, w, wk, step);
    forall i | 0 <= i < |step.picked|
      ensures Candidate(db.rows, wk.cfg.queue, step.at, step.picked[i])
      ensures Holds(db', w, Grant(step.picked[i], db.rows[step.picked[i]].attempts + 1))
    {
      assert Candidate(db.rows, wk.cfg.queue, step.at, step.picked[i]);
      RowStep(db, e, step.picked[i]);
    }
    forall n | InStage(wk, n, Executing)
      ensures Safe(db', w, wk.dispatches[n].grant) && wk.dispatches[n].grant.id !in step.picked
    {
      ExecutingUnclaimed(db, w, wk, step, n);
    }
    forall g | LiveGrant(after, g) ensures Safe(db', w, g) {
      if after.main.Launching? && g in after.main.batch {
        var i :| 0 <= i < |after.main.batch| && after.main.batch[i] == g;
        assert g == Grant(step.picked[i], db.rows[step.picked[i]].attempts + 1);
      }
    }
  }

  lemma LiveLaunch(db: Db, w: string, wk: Worker)
    requires Inv(db) && LiveOk(db, w, wk) && CanMove(db, w, wk, Launch)
    ensures LiveOk(db, w, Move(db, w, wk, Launch))
  {
    var after := Move(db, w, wk, Launch);
    var g0 := wk.main.batch[0];
    assert LiveGrant(wk, g0);
    forall g | LiveGrant(after, g) ensures Safe(db, w, g) {
      if after.main.Launching? && g in after.main.batch {
        assert g in wk.main.batch;
      } else {
        var n :| n in after.dispatches && Executes(after, n, g);
        assert n == wk.nextDispatch || Executes(wk, n, g);
      }
      assert LiveGrant(wk, g);
    }
    forall n | InStage(after, n, Executing)
      ensures (n == wk.nextDispatch && after.dispatches[n].grant == g0) ||
              (InStage(wk, n, Executing) && after.dispatches[n] == wk.dispatches[n])
    {
    }
  }

  lemma LiveSame(db: Db, w: string, wk: Worker, step: Step)
    requires Inv(db) && LiveOk(db, w, wk) && CanMove(db, w, wk, step)
    requires !step.Release? && !step.Finish? && !step.Granted? && !step.ClaimError? && !step.Launch?
    ensures LiveOk(TableAfter(db, w, wk, step), w, Move(db, w, wk, step))
  {
    var after := Move(db, w, wk, step);
    var db' := TableAfter(db, w, wk, step);
    forall g | LiveGrant(after, g) ensures LiveGrant(wk, g) && Safe(db', w, g) {
      if exists n | n in after.dispatches :: Executes(after, n, g) {
        var n :| n in after.dispatches && Executes(after, n, g);
        assert Executes(wk, n, g);
      }
      assert LiveGrant(wk, g);
      var e := EventOf(w, wk, step);
      if e.Some? {
        RowStep(db, e.value, g.id);
      }
    }
    assert forall m | InStage(after, m, Executing) ::
        InStage(wk, m, Executing) && after.dispatches[m] == wk.dispatches[m];
  }

  /** A release at shutdown takes effect on a task whose handler this worker is executing, and
      which has attempts left. */
  ghost predicate ReleasesRunning(db: Db, w: string, wk: Worker, step: Step) {
    step.Release? && wk.main.Releasing? && wk.main.left != [] &&
    var id, e := wk.main.left[0], EventOf(w, wk, step);
    e.Some? && ValidJitter(e.value) && !Errors(db, e.value) &&
    id in db.rows && db.rows[id].OwnedBy(w) && !db.rows[id].Exhausted() &&
    exists n :: InStage(wk, n, Executing) && wk.dispatches[n].grant.id == id
  }

  /** Exactly when a release is safe: it hands no live task to others if and only if it does not
      take effect on a task with attempts left whose handler is executing. */
  lemma ReleaseSafeIff(db: Db, w: string, wk: Worker, step: Step)
    requires Inv(db) && LiveOk(db, w, wk) && CanMove(db, w, wk, step) && step.Release?
    ensures LiveOk(TableAfter(db, w, wk, step), w, Move(db, w, wk, step)) <==> !ReleasesRunning(db, w, wk, step)
  {
    var after, db' := Move(db, w, wk, step), TableAfter(db, w, wk, step);
    var e := EventOf(w, wk, step);
    assert forall n :: InStage(after, n, Executing) <==> InStage(wk, n, Executing);
    forall n | InStage(wk, n, Executing)
      ensures Executes(wk, n, wk.dispatches[n].grant) && Safe(db, w, wk.dispatches[n].grant)
      ensures Safe(db', w, wk.dispatches[n].grant) <==>
              !(e.Some? && !Errors(db, e.value) && wk.dispatches[n].grant.id == wk.main.left[0] &&
                db.rows[wk.dispatches[n].grant.id].OwnedBy(w) && !db.rows[wk.dispatches[n].grant.id].Exhausted())
    {
      var g := wk.dispatches[n].grant;
      assert LiveGrant(wk, g);
      if e.Some? {
        RowStep(db, e.value, g.id);
      }
    }
    forall n | InStage(after, n, Executing) ensures LiveGrant(after, after.dispatches[n].grant) {
      assert Executes(after, n, after.dispatches[n].grant);
    }
  }

  /** No other step of the worker itself puts a live task at risk. */
  lemma LiveOwn(db: Db, w: string, wk: Worker, step: Step)
    requires Inv(db) && LiveOk(db, w, wk) && CanMove(db, w, wk, step)
    requires !ReleasesRunning(db, w, wk, step)
    ensures LiveOk(TableAfter(db, w, wk, step), w, Move(db, w, wk, step))
  {
    match step {
      case Finish(n, report) => LiveFinish(db, w, wk, n, report);
      case Granted(_, _) => LiveClaim(db, w, wk, step);
      case ClaimError(_, _) => LiveClaim(db, w, wk, step);
      case Launch => LiveLaunch(db, w, wk);
      case Release(_, _) => ReleaseSafeIff(db, w, wk, step);
      case _ => LiveSame(db, w, wk, step);
    }
  }

  // ----- the fleet -----

  datatype Fleet = Fleet(db: Db, workers: map<string, Worker>)

  /** ByOther is a statement by no worker: a clock tick, a client call or a sweep. */
  datatype FleetStep =
    | ByWorker(w: string, step: Step)
    | ByOther(e: Event)
    | Start(w: string, cfg: Config)
    | Crash(w: string)

  predicate NoWorkers(e: Event) {
    e.Tick? || e.Insert? || e.Rollback? || e.Cancel? || e.Recover?
  }

  /** Every statement is made by exactly one worker, or by none. */
  lemma WhoseStatement(e: Event, w: string)
    ensures NoWorkers(e) <==> !(e.Claim? || e.Heartbeat? || e.Complete? || e.Fail?)
    ensures Foreign(e, w) <==> NoWorkers(e) || e.worker != w
  {
  }

  predicate FleetCan(f: Fleet, s: FleetStep) {
    match s
    case ByWorker(w, step) => w in f.workers && CanMove(f.db, w, f.workers[w], step)
    case ByOther(e) => NoWorkers(e) && ValidJitter(e) && Enabled(f.db, e)
    case Start(w, cfg) => w !in f.workers
    case Crash(w) => w in f.workers
  }

  function FleetDo(f: Fleet, s: FleetStep): Fleet
    requires FleetCan(f, s)
  {
    match s
    case ByWorker(w, step) =>
      Fleet(TableAfter(f.db, w, f.workers[w], step), f.workers[w := Move(f.db, w, f.workers[w], step)])
    case ByOther(e) => f.(db := Next(f.db, e))
    case Start(w, cfg) => f.(workers := f.workers[w := NewWorker(cfg)])
    case Crash(w) => f.(workers := f.workers - {w})
  }

  /** The worker has a live grant on the task. */
  ghost predicate LiveOn(wk: Worker, id: int) {
    exists g :: LiveGrant(wk, g) && g.id == id
  }

  ghost predicate FleetOk(f: Fleet) {
    Inv(f.db) && (forall w | w in f.workers :: LiveOk(f.db, w, f.workers[w])) &&
    forall v, w, id | v in f.workers && w in f.workers && LiveOn(f.workers[v], id) && LiveOn(f.workers[w], id) :: v == w
  }

  /** A worker comes to have a task only by claiming it. */
  lemma LiveOnStep(db: Db, w: string, wk: Worker, step: Step, id: int)
    requires CanMove(db, w, wk, step) && LiveOn(Move(db, w, wk, step), id)
    ensures LiveOn(wk, id) || (step.Granted? && id in step.picked && Candidate(db.rows, wk.cfg.queue, step.at, id))
  {
    var after := Move(db, w, wk, step);
    var g :| LiveGrant(after, g) && g.id == id;
    if after.main.Launching? && g in after.main.batch {
      if step.Granted? {
        var i :| 0 <= i < |after.main.batch| && after.main.batch[i] == g;
        assert Candidate(db.rows, wk.cfg.queue, step.at, step.picked[i]);
      } else {
        assert LiveGrant(wk, g);
      }
    } else {
      var n :| n in after.dispatches && Executes(after, n, g);
      assert Executes(wk, n, g) || (step.Launch? && g == wk.main.batch[0]);
      assert LiveGrant(wk, g);
    }
  }

  /** The hypotheses of the guarantee, at one step. */
  ghost predicate Timely(f: Fleet, s: FleetStep) {
    (s == ByOther(Recover) ==> forall w | w in f.workers :: Refreshed(f.db, f.workers[w])) &&
    !(s.ByWorker? && s.w in f.workers && ReleasesRunning(f.db, s.w, f.workers[s.w], s.step))
  }

  /** A worker that has a task after the step had it before, or has just claimed it. */
  lemma LiveOnSource(f: Fleet, s: FleetStep, v: string, id: int)
    requires FleetCan(f, s) && v in FleetDo(f, s).workers && LiveOn(FleetDo(f, s).workers[v], id)
    ensures (v in f.workers && LiveOn(f.workers[v], id)) ||
            (s.ByWorker? && s.w == v && id in f.db.rows && f.db.rows[id].status == Pending)
  {
    match s {
      case ByWorker(w, step) =>
        if v == w {
          LiveOnStep(f.db, w, f.workers[w], step, id);
        }
      case Start(w, cfg) =>
        if v == w {
          NoneLive(cfg, id);
        }
      case _ =>
    }
  }

  lemma LiveNotPending(f: Fleet, v: string, id: int)
    requires FleetOk(f) && v in f.workers && LiveOn(f.workers[v], id)
    ensures id in f.db.rows && f.db.rows[id].status != Pending
  {
    var g :| LiveGrant(f.workers[v], g) && g.id == id;
    assert Safe(f.db, v, g);
  }

  lemma DisjointStep(f: Fleet, s: FleetStep)
    requires FleetOk(f) && FleetCan(f, s)
    ensures forall v, w, id | v in FleetDo(f, s).workers && w in FleetDo(f, s).workers &&
              LiveOn(FleetDo(f, s).workers[v], id) && LiveOn(FleetDo(f, s).workers[w], id) :: v == w
  {
    var f' := FleetDo(f, s);
    forall v, w, id | v in f'.workers && w in f'.workers && LiveOn(f'.workers[v], id) && LiveOn(f'.workers[w], id)
      ensures v == w
    {
      LiveOnSource(f, s, v, id);
      LiveOnSource(f, s, w, id);
      if v in f.workers && LiveOn(f.workers[v], id) { LiveNotPending(f, v, id); }
      if w in f.workers && LiveOn(f.workers[w], id) { LiveNotPending(f, w, id); }
    }
  }

  lemma NoneLive(cfg: Config, id: int)
    ensures !LiveOn(NewWorker(cfg), id)
  {
  }

  lemma FleetStepOk(f: Fleet, s: FleetStep)
    requires FleetOk(f) && FleetCan(f, s) && Timely(f, s)
    ensures FleetOk(FleetDo(f, s))
  {
    var f' := FleetDo(f, s);
    DisjointStep(f, s);
    match s {
      case ByWorker(w, step) =>
        var e := EventOf(w, f.workers[w], step);
        if e.Some? {
          InvStep(f.db, e.value);
        }
        LiveOwn(f.db, w, f.workers[w], step);
        forall v | v in f.workers && v != w ensures LiveOk(f'.db, v, f'.workers[v]) {
          if e.Some? {
            LiveEnv(f.db, v, f.workers[v], e.value);
          }
        }
      case ByOther(e) =>
        InvStep(f.db, e);
        forall v | v in f.workers ensures LiveOk(f'.db, v, f'.workers[v]) {
          LiveEnv(f.db, v, f.workers[v], e);
        }
      case Start(_, _) =>
      case Crash(_) =>
    }
  }

  ghost predicate FleetRun(f: Fleet, ss: seq<FleetStep>)
    decreases |ss|, 0
  {
    ss == [] || (FleetRun(f, ss[..|ss| - 1]) && FleetCan(FleetAfter(f, ss[..|ss| - 1]), ss[|ss| - 1]))
  }

  ghost function FleetAfter(f: Fleet, ss: seq<FleetStep>): Fleet
    requires FleetRun(f, ss)
    decreases |ss|, 1
  {
    if ss == [] then f else FleetDo(FleetAfter(f, ss[..|ss| - 1]), ss[|ss| - 1])
  }

  ghost predicate TimelyRun(f: Fleet, ss: seq<FleetStep>)
    requires FleetRun(f, ss)
  {
    ss == [] || (TimelyRun(f, ss[..|ss| - 1]) && Timely(FleetAfter(f, ss[..|ss| - 1]), ss[|ss| - 1]))
  }

  lemma {:induction false} FleetRunOk(f: Fleet, ss: seq<FleetStep>)
    requires FleetOk(f) && FleetRun(f, ss) && TimelyRun(f, ss)
    ensures FleetOk(FleetAfter(f, ss))
  {
    if ss != [] {
      FleetRunOk(f, ss[..|ss| - 1]);
      FleetStepOk(FleetAfter(f, ss[..|ss| - 1]), ss[|ss| - 1]);
    }
  }

  /** Dispatch `n` of worker `w` is executing a handler for task `id`. */
  predicate Running(f: Fleet, w: string, n: nat, id: int) {
    w in f.workers && InStage(f.workers[w], n, Executing) && f.workers[w].dispatches[n].grant.id == id
  }

  lemma RunningIsLive(f: Fleet, w: string, n: nat, id: int)
    requires Running(f, w, n, id)
    ensures LiveOn(f.workers[w], id)
  {
    var g := f.workers[w].dispatches[n].grant;
    assert Executes(f.workers[w], n, g);
    assert LiveGrant(f.workers[w], g);
  }

  lemma OneRunner(f: Fleet, id: int, v: string, m: nat, w: string, n: nat)
    requires FleetOk(f) && Running(f, v, m, id) && Running(f, w, n, id)
    ensures v == w && m == n
  {
    RunningIsLive(f, v, m, id);
    RunningIsLive(f, w, n, id);
  }

  /** Zero double execution. Start with an empty table and no workers, and let workers start,
      claim, launch, finish, shut down, fail to reach the store and crash, in any interleaving
      with sweeps and clients. If no sweep ever finds a live claim with attempts left silent for
      more than 90 seconds, and no forced release takes effect on such a task whose handler is
      executing, then at every moment at most one handler in the whole fleet executes a given
      task. */
  lemma ZeroDoubleExecution(t0: int, ss: seq<FleetStep>, id: int, v: string, m: nat, w: string, n: nat)
    requires FleetRun(Fleet(Init(t0), map[]), ss) && TimelyRun(Fleet(Init(t0), map[]), ss)
    requires Running(FleetAfter(Fleet(Init(t0), map[]), ss), v, m, id)
    requires Running(FleetAfter(Fleet(Init(t0), map[]), ss), w, n, id)
    ensures v == w && m == n
  {
    FleetRunOk(Fleet(Init(t0), map[]), ss);
    OneRunner(FleetAfter(Fleet(Init(t0), map[]), ss), id, v, m, w, n);
  }

  // ----- both hypotheses are needed -----

  lemma FleetSnoc(f: Fleet, ss: seq<FleetStep>, s: FleetStep)
    requires FleetRun(f, ss) && FleetCan(FleetAfter(f, ss), s)
    ensures FleetRun(f, ss + [s]) && FleetAfter(f, ss + [s]) == FleetDo(FleetAfter(f, ss), s)
  {
    assert (ss + [s])[..|ss + [s]| - 1] == ss;
  }

  lemma {:induction false} FleetConcat(f: Fleet, xs: seq<FleetStep>, ys: seq<FleetStep>)
    requires FleetRun(f, xs) && FleetRun(FleetAfter(f, xs), ys)
    ensures FleetRun(f, xs + ys) && FleetAfter(f, xs + ys) == FleetAfter(FleetAfter(f, xs), ys)
    decreases |ys|
  {
    if ys == [] {
      assert xs + ys == xs;
    } else {
      var front, last := ys[..|ys| - 1], ys[|ys| - 1];
      assert FleetCan(FleetAfter(FleetAfter(f, xs), front), last);
      FleetConcat(f, xs, front);
      FleetSnoc(f, xs + front, last);
      assert xs + ys == (xs + front) + [last];
    }
  }

  /** A worker with a free slot, at the top of its claim loop, on the queue of task `id`. */
  predicate CouldClaim(f: Fleet, w: string, id: int) {
    w in f.workers && id in f.db.rows && f.workers[w].main == Waiting && f.workers[w].cfg.Valid() &&
    f.workers[w].slots < f.workers[w].cfg.concurrency && f.workers[w].cfg.queue == f.db.rows[id].queue
  }

  /** Which of the two hypotheses a run breaks. */
  datatype Fault = StaleSweep | ForcedRelease

  /** The step does not touch the other hypothesis. */
  predicate Only(fault: Fault, s: FleetStep) {
    match fault
    case StaleSweep => !(s.ByWorker? && s.step.Release?)
    case ForcedRelease => s != ByOther(Recover)
  }

  /** From here two workers can come to execute task `id` together, breaking only this hypothesis. */
  ghost predicate CanRunTwice(f: Fleet, id: int, fault: Fault) {
    exists ss, v, m, w, n :: FleetRun(f, ss) && (forall s | s in ss :: Only(fault, s)) &&
      v != w && Running(FleetAfter(f, ss), v, m, id) && Running(FleetAfter(f, ss), w, n, id)
  }

  lemma AlreadyTwice(f: Fleet, id: int, v: string, m: nat, w: string, n: nat, fault: Fault)
    requires v != w && Running(f, v, m, id) && Running(f, w, n, id)
    ensures CanRunTwice(f, id, fault)
  {
    assert FleetRun(f, []) && FleetAfter(f, []) == f;
  }

  lemma StepRunsTwice(f: Fleet, s: FleetStep, id: int, fault: Fault)
    requires FleetCan(f, s) && Only(fault, s) && CanRunTwice(FleetDo(f, s), id, fault)
    ensures CanRunTwice(f, id, fault)
  {
    var mid := FleetDo(f, s);
    var ss, v, m, w, n :| FleetRun(mid, ss) && (forall s | s in ss :: Only(fault, s)) &&
      v != w && Running(FleetAfter(mid, ss), v, m, id) && Running(FleetAfter(mid, ss), w, n, id);
    FleetSnoc(f, [], s);
    assert [] + [s] == [s];
    FleetConcat(f, [s], ss);
  }

  lemma LaunchRunsTwice(f: Fleet, v: string, m: nat, w: string, g: Grant, fault: Fault)
    requires v != w && Running(f, v, m, g.id)
    requires w in f.workers && f.workers[w].main == Launching([g]) && f.workers[w].slots < f.workers[w].cfg.concurrency
    ensures CanRunTwice(f, g.id, fault)
  {
    var s := ByWorker(w, Launch);
    assert Running(FleetDo(f, s), w, f.workers[w].nextDispatch, g.id);
    AlreadyTwice(FleetDo(f, s), g.id, v, m, w, f.workers[w].nextDispatch, fault);
    StepRunsTwice(f, s, g.id, fault);
  }

  lemma AskingRunsTwice(f: Fleet, v: string, m: nat, w: string, id: int, fault: Fault)
    requires v != w && Running(f, v, m, id)
    requires w in f.workers && f.workers[w].main.Asking? && f.workers[w].main.limit >= 1
    requires f.workers[w].slots < f.workers[w].cfg.concurrency
    requires Candidate(f.db.rows, f.workers[w].cfg.queue, f.db.now, id)
    ensures CanRunTwice(f, id, fault)
  {
    var s := ByWorker(w, Granted(f.db.now, [id]));
    var g := Grant(id, f.db.rows[id].attempts + 1);
    assert GrantsOf(f.db, [id]) == [g];
    LaunchRunsTwice(FleetDo(f, s), v, m, w, g, fault);
    StepRunsTwice(f, s, id, fault);
  }

  lemma DueRunsTwice(f: Fleet, v: string, m: nat, w: string, id: int, fault: Fault)
    requires v != w && Running(f, v, m, id) && CouldClaim(f, w, id)
    requires f.db.rows[id].Due(f.db.now)
    ensures CanRunTwice(f, id, fault)
  {
    var free, ask := ByWorker(w, FreeSlot), ByWorker(w, Ask);
    AskingRunsTwice(FleetDo(FleetDo(f, free), ask), v, m, w, id, fault);
    StepRunsTwice(FleetDo(f, free), ask, id, fault);
    StepRunsTwice(f, free, id, fault);
  }

  lemma ReclaimRunsTwice(f: Fleet, v: string, m: nat, w: string, id: int, fault: Fault)
    requires v != w && Running(f, v, m, id) && CouldClaim(f, w, id)
    requires f.db.rows[id].status == Pending
    ensures CanRunTwice(f, id, fault)
  {
    var tick := ByOther(Tick(if f.db.rows[id].runAt <= f.db.now then f.db.now else f.db.rows[id].runAt));
    DueRunsTwice(FleetDo(f, tick), v, m, w, id, fault);
    StepRunsTwice(f, tick, id, fault);
  }

  /** Without the heartbeat hypothesis the guarantee is false: a sweep that finds a live claim
      silent for over 90 seconds lets a second worker run the task beside the first. */
  lemma StaleClaimRunsTwice(f: Fleet, v: string, m: nat, w: string, id: int)
    requires Inv(f.db) && v != w && Running(f, v, m, id) && CouldClaim(f, w, id)
    requires f.db.rows[id].Expired(f.db.now) && !f.db.rows[id].Exhausted() && !Errors(f.db, Recover)
    ensures CanRunTwice(f, id, StaleSweep)
  {
    RowStep(f.db, Recover, id);
    ReclaimRunsTwice(FleetDo(f, ByOther(Recover)), v, m, w, id, StaleSweep);
    StepRunsTwice(f, ByOther(Recover), id, StaleSweep);
  }

  /** Nor does it survive an expired shutdown grace: the claim of a handler that is still
      running is released, and a second worker may take it. */
  lemma ExpiredGraceRunsTwice(f: Fleet, v: string, m: nat, w: string, id: int, rest: seq<int>)
    requires Inv(f.db) && v != w && Running(f, v, m, id) && CouldClaim(f, w, id)
    requires f.workers[v].main == Draining && Enumerates([id] + rest, f.workers[v].inFlight.Keys)
    requires f.db.rows[id].OwnedBy(v) && !f.db.rows[id].Exhausted() && !f.db.rows[id].Overflows()
    ensures CanRunTwice(f, id, ForcedRelease)
  {
    var over, release := ByWorker(v, GraceOver([id] + rest)), ByWorker(v, Release(0.0, true));
    var f1 := FleetDo(f, over);
    var e := Fail(v, id, 0.0, SHUTDOWN_MESSAGE);
    assert EventOf(v, f1.workers[v], release.step) == Some(e);
    RowStep(f.db, e, id);
    ReclaimRunsTwice(FleetDo(f1, release), v, m, w, id, ForcedRelease);
    StepRunsTwice(f1, release, id, ForcedRelease);
    StepRunsTwice(f, over, id, ForcedRelease);
  }

  // ----- exactly when they are needed -----

  /** Once a task is terminal, only the worker that already has it can ever execute it. */
  lemma {:induction false} SealedRun(f: Fleet, ss: seq<FleetStep>, id: int, v: string)
    requires Inv(f.db) && FleetRun(f, ss)
    requires id in f.db.rows && f.db.rows[id].status.Terminal()
    requires forall w | w in f.workers && LiveOn(f.workers[w], id) :: w == v
    ensures var f' := FleetAfter(f, ss);
            Inv(f'.db) && id in f'.db.rows && f'.db.rows[id].status.Terminal() &&
            forall w | w in f'.workers && LiveOn(f'.workers[w], id) :: w == v
  {
    if ss != [] {
      SealedRun(f, ss[..|ss| - 1], id, v);
      SealedStep(FleetAfter(f, ss[..|ss| - 1]), ss[|ss| - 1], id, v);
    }
  }

  lemma SealedStep(f: Fleet, s: FleetStep, id: int, v: string)
    requires Inv(f.db) && FleetCan(f, s)
    requires id in f.db.rows && f.db.rows[id].status.Terminal()
    requires forall w | w in f.workers && LiveOn(f.workers[w], id) :: w == v
    ensures var f' := FleetDo(f, s);
            Inv(f'.db) && id in f'.db.rows && f'.db.rows[id].status.Terminal() &&
            forall w | w in f'.workers && LiveOn(f'.workers[w], id) :: w == v
  {
    var f' := FleetDo(f, s);
    var e := match s
             case ByWorker(w, step) => EventOf(w, f.workers[w], step)
             case ByOther(e) => Some(e)
             case _ => None;
    if e.Some? {
      InvStep(f.db, e.value);
      RowStep(f.db, e.value, id);
    }
    forall w | w in f'.workers && LiveOn(f'.workers[w], id) ensures w == v {
      match s {
        case ByWorker(u, step) =>
          if w == u {
            LiveOnStep(f.db, u, f.workers[u], step, id);
          }
        case Start(u, cfg) =>
          NoneLive(cfg, id);
        case _ =>
      }
    }
  }

  lemma SealedOnce(f: Fleet, id: int, v: string, fault: Fault)
    requires Inv(f.db) && id in f.db.rows && f.db.rows[id].status.Terminal()
    requires forall w | w in f.workers && LiveOn(f.workers[w], id) :: w == v
    ensures !CanRunTwice(f, id, fault)
  {
    if CanRunTwice(f, id, fault) {
      var ss, a, m, b, n :| FleetRun(f, ss) && (forall s | s in ss :: Only(fault, s)) &&
        a != b && Running(FleetAfter(f, ss), a, m, id) && Running(FleetAfter(f, ss), b, n, id);
      SealedRun(f, ss, id, v);
      RunningIsLive(FleetAfter(f, ss), a, m, id);
      RunningIsLive(FleetAfter(f, ss), b, n, id);
    }
  }

  /** A newcomer claims the pending task beside the handler still executing it. */
  lemma NewcomerRunsTwice(f: Fleet, v: string, m: nat, w: string, id: int, fault: Fault)
    requires w !in f.workers && Running(f, v, m, id) && id in f.db.rows && f.db.rows[id].status == Pending
    ensures CanRunTwice(f, id, fault)
  {
    var start := Start(w, Config(f.db.rows[id].queue, 1, 1));
    ReclaimRunsTwice(FleetDo(f, start), v, m, w, id, fault);
    StepRunsTwice(f, start, id, fault);
  }

  /** Exactly when a sweep of a running task is harmful: two workers can come to execute it
      together if and only if it has attempts left. */
  lemma SweepTwiceIff(f: Fleet, v: string, m: nat, w: string, id: int, fault: Fault)
    requires FleetOk(f) && Running(f, v, m, id) && w !in f.workers && id in f.db.rows
    requires f.db.rows[id].Expired(f.db.now) && !Errors(f.db, Recover)
    ensures CanRunTwice(FleetDo(f, ByOther(Recover)), id, fault) <==> !f.db.rows[id].Exhausted()
  {
    var after := FleetDo(f, ByOther(Recover));
    RowStep(f.db, Recover, id);
    InvStep(f.db, Recover);
    RunningIsLive(f, v, m, id);
    if f.db.rows[id].Exhausted() {
      SealedOnce(after, id, v, fault);
    } else {
      NewcomerRunsTwice(after, v, m, w, id, fault);
    }
  }

  /** And a forced release of a running task that takes effect. */
  lemma ReleaseTwiceIff(f: Fleet, v: string, m: nat, w: string, id: int, jitter: real, fault: Fault)
    requires FleetOk(f) && Running(f, v, m, id) && w !in f.workers && id in f.db.rows
    requires FleetCan(f, ByWorker(v, Release(jitter, true))) && f.workers[v].main.left[0] == id
    requires f.db.rows[id].OwnedBy(v) && !f.db.rows[id].Overflows()
    ensures CanRunTwice(FleetDo(f, ByWorker(v, Release(jitter, true))), id, fault) <==> !f.db.rows[id].Exhausted()
  {
    var step := ByWorker(v, Release(jitter, true));
    var after := FleetDo(f, step);
    var e := Fail(v, id, jitter, SHUTDOWN_MESSAGE);
    assert EventOf(v, f.workers[v], step.step) == Some(e);
    RowStep(f.db, e, id);
    InvStep(f.db, e);
    RunningIsLive(f, v, m, id);
    assert Running(after, v, m, id);
    if f.db.rows[id].Exhausted() {
      DisjointStep(f, step);
      RunningIsLive(after, v, m, id);
      SealedOnce(after, id, v, fault);
    } else {
      NewcomerRunsTwice(after, v, m, w, id, fault);
    }
  }

  // ----- and such states are reached -----

  /** One task in the table, worker `v` in state `wk`, and worker `w` idle beside it. */
  function Pair(t0: int, t: Task, v: string, wk: Worker, w: string): Fleet {
    Fleet(Db(map[1 := t], 2, t0), map[w := NewWorker(wk.cfg)][v := wk])
  }

  function AskingWorker(queue: string): Worker {
    NewWorker(Config(queue, 1, 1)).(main := Asking(1))
  }

  function BusyWorker(queue: string): Worker {
    Worker(Config(queue, 1, 1), Waiting, 1, 1, map[1 := 0], map[0 := Dispatch(Grant(1, 1), Executing)], 1, {}, Resting)
  }

  /** A task inserted at `t0` and executing at worker `v`. */
  function OneRunning(t0: int, sub: Submission, v: string, w: string): Fleet
    requires Acceptable(sub)
  {
    Pair(t0, Claimed(NewTask(sub, 1, t0), v, t0), v, BusyWorker(sub.queue), w)
  }

  lemma SetTwice(m: map<string, Worker>, v: string, a: Worker, b: Worker)
    ensures m[v := a][v := b] == m[v := b]
  {
  }

  /** The worker claims the task and launches it. */
  lemma AskingToRunning(t0: int, sub: Submission, v: string, w: string, fault: Fault)
    requires Acceptable(sub) && sub.runAt == None && v != w
    requires CanRunTwice(OneRunning(t0, sub, v, w), 1, fault)
    ensures CanRunTwice(Pair(t0, NewTask(sub, 1, t0), v, AskingWorker(sub.queue), w), 1, fault)
  {
    var t := NewTask(sub, 1, t0);
    var f := Pair(t0, t, v, AskingWorker(sub.queue), w);
    var granted, launch := ByWorker(v, Granted(t0, [1])), ByWorker(v, Launch);
    assert GrantsOf(f.db, [1]) == [Grant(1, 1)];
    var g := FleetDo(f, granted);
    assert g.db.rows == map[1 := Claimed(t, v, t0)];
    var launching := AskingWorker(sub.queue).(main := Launching([Grant(1, 1)]));
    SetTwice(map[w := NewWorker(launching.cfg)], v, AskingWorker(sub.queue), launching);
    assert g == Pair(t0, Claimed(t, v, t0), v, launching, w);
    SetTwice(map[w := NewWorker(launching.cfg)], v, launching, BusyWorker(sub.queue));
    assert Move(g.db, v, launching, Launch) == BusyWorker(sub.queue);
    assert FleetDo(g, launch) == OneRunning(t0, sub, v, w);
    StepRunsTwice(g, launch, 1, fault);
    StepRunsTwice(f, granted, 1, fault);
  }

  lemma IdleToAsking(t0: int, t: Task, v: string, queue: string, w: string, fault: Fault)
    requires v != w && CanRunTwice(Pair(t0, t, v, AskingWorker(queue), w), 1, fault)
    ensures CanRunTwice(Pair(t0, t, v, NewWorker(Config(queue, 1, 1)), w), 1, fault)
  {
    var idle := NewWorker(Config(queue, 1, 1));
    var ready := idle.(main := Ready);
    var f := Pair(t0, t, v, idle, w);
    var free, ask := ByWorker(v, FreeSlot), ByWorker(v, Ask);
    SetTwice(map[w := idle], v, idle, ready);
    SetTwice(map[w := idle], v, ready, AskingWorker(queue));
    var g := FleetDo(f, free);
    assert g == Pair(t0, t, v, ready, w);
    assert FleetDo(g, ask) == Pair(t0, t, v, AskingWorker(queue), w);
    StepRunsTwice(g, ask, 1, fault);
    StepRunsTwice(f, free, 1, fault);
  }

  /** The task is enqueued in an empty system and both workers start. */
  lemma StartToIdle(t0: int, sub: Submission, v: string, w: string, fault: Fault)
    requires Acceptable(sub) && v != w
    requires CanRunTwice(Pair(t0, NewTask(sub, 1, t0), v, NewWorker(Config(sub.queue, 1, 1)), w), 1, fault)
    ensures CanRunTwice(Fleet(Init(t0), map[]), 1, fault)
  {
    var cfg := Config(sub.queue, 1, 1);
    var f := Fleet(Init(t0), map[]);
    var insert, first, second := ByOther(Insert(sub)), Start(w, cfg), Start(v, cfg);
    var g := FleetDo(f, insert);
    assert g.db == Db(map[1 := NewTask(sub, 1, t0)], 2, t0);
    var h := FleetDo(g, first);
    assert h.workers == map[w := NewWorker(cfg)];
    assert FleetDo(h, second) == Pair(t0, NewTask(sub, 1, t0), v, NewWorker(cfg), w);
    StepRunsTwice(h, second, 1, fault);
    StepRunsTwice(g, first, 1, fault);
    StepRunsTwice(f, insert, 1, fault);
  }

  lemma FromTheStart(t0: int, sub: Submission, v: string, w: string, fault: Fault)
    requires Acceptable(sub) && sub.runAt == None && v != w
    requires CanRunTwice(OneRunning(t0, sub, v, w), 1, fault)
    ensures CanRunTwice(Fleet(Init(t0), map[]), 1, fault)
  {
    AskingToRunning(t0, sub, v, w, fault);
    IdleToAsking(t0, NewTask(sub, 1, t0), v, sub.queue, w, fault);
    StartToIdle(t0, sub, v, w, fault);
  }

  /** From the empty system, with any task that may be retried: a single sweep of a claim
      silent for 91 seconds, and no forced release, makes two workers execute it together. */
  lemma StaleSweepBreaksIt(t0: int, sub: Submission, v: string, w: string)
    requires Acceptable(sub) && sub.runAt == None && sub.maxAttempts != 1 && v != w
    ensures CanRunTwice(Fleet(Init(t0), map[]), 1, StaleSweep)
  {
    var f := OneRunning(t0, sub, v, w);
    var late := FleetDo(f, ByOther(Tick(t0 + 91 * Retry.SECOND)));
    OneRunningOk(t0, sub, v, w);
    InvStep(f.db, Tick(t0 + 91 * Retry.SECOND));
    assert !late.db.rows[1].Overflows();
    StaleClaimRunsTwice(late, v, 0, w, 1);
    StepRunsTwice(f, ByOther(Tick(t0 + 91 * Retry.SECOND)), 1, StaleSweep);
    FromTheStart(t0, sub, v, w, StaleSweep);
  }

  /** And so does a single forced release of a running task, without any sweep. */
  lemma ForcedReleaseBreaksIt(t0: int, sub: Submission, v: string, w: string)
    requires Acceptable(sub) && sub.runAt == None && sub.maxAttempts != 1 && v != w
    ensures CanRunTwice(Fleet(Init(t0), map[]), 1, ForcedRelease)
  {
    var f := OneRunning(t0, sub, v, w);
    OneRunningOk(t0, sub, v, w);
    var draining := FleetDo(f, ByWorker(v, Stop));
    assert [1] + [] == [1];
    ExpiredGraceRunsTwice(draining, v, 0, w, 1, []);
    StepRunsTwice(f, ByWorker(v, Stop), 1, ForcedRelease);
    FromTheStart(t0, sub, v, w, ForcedRelease);
  }

  lemma OneRunningOk(t0: int, sub: Submission, v: string, w: string)
    requires Acceptable(sub) && sub.runAt == None
    ensures Inv(OneRunning(t0, sub, v, w).db)
  {
  }
}
