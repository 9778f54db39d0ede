// The worker process as interleaved atomic steps: the claim loop, the dispatch goroutines,
// the heartbeat loop and the shutdown, over the task table.
//
// A step of worker `w` reads the table, moves the worker's own state (`Move`) and performs
// at most one statement (`EventOf`).
module Worker {
  import opened Wrappers
  import opened Retry
  import opened Tasks

  datatype Config = Config(queue: string, claimBatch: nat, concurrency: nat) {
    predicate Valid() {
      claimBatch >= 1 && concurrency >= 1
    }
  }

  /** One granted claim: the task and the attempts value the claim stamped on it. */
  datatype Grant = Grant(id: int, epoch: nat)

  /** How far a dispatch goroutine has come: the handler until its outcome is reported to
      the store, then the deferred calls remove, <-sem and wg.Done, in that order. */
  datatype Stage = Executing | Reported | Unlisted | Unslotted

  datatype Dispatch = Dispatch(grant: Grant, stage: Stage)

  /** Where the goroutine of Run stands. */
  datatype Main =
    | Waiting
    | Ready
    | Asking(limit: nat)
    | Launching(batch: seq<Grant>)
    | Draining
    | Releasing(left: seq<int>)
    | Stopped

  /** Where the heartbeat goroutine stands. */
  datatype Beat =
    | Resting
    | Sending(ids: seq<int>)
    | Checking(left: seq<int>)
    | Cancelling(id: int, rest: seq<int>)

  /** slots is len(w.sem), waiting is the wait group's counter; inFlight maps a task to the
      dispatch whose cancel function is registered for it; cancelled collects the dispatches
      whose context has been cancelled. */
  datatype Worker = Worker(
    cfg: Config,
    main: Main,
    slots: nat,
    waiting: nat,
    inFlight: map<int, nat>,
    dispatches: map<nat, Dispatch>,
    nextDispatch: nat,
    cancelled: set<nat>,
    beat: Beat)

  function NewWorker(cfg: Config): Worker {
    Worker(cfg, Waiting, 0, 0, map[], map[], 0, {}, Resting)
  }

  /** What a dispatch tells the store; Unwritten is a store call that did not take effect. */
  datatype Report = Success | Failure(jitter: real, message: string) | Unwritten

  datatype Step =
    // the claim loop
    | FreeSlot
    | Ask
    | Granted(at: int, picked: seq<int>)
    | ClaimError(at: int, picked: seq<int>)
    | Launch
    // shutdown
    | Stop
    | Drained
    | GraceOver(left: seq<int>)
    | Release(jitter: real, written: bool)
    | AllReleased
    // a dispatch goroutine
    | Finish(n: nat, report: Report)
    | Unlist(n: nat)
    | Unslot(n: nat)
    | Exit(n: nat)
    // the heartbeat loop
    | BeatStart(ids: seq<int>)
    | BeatSend(sent: bool, replied: bool)
    | BeatGet(read: bool)
    | BeatCancel
    | BeatDone

  const SHUTDOWN_MESSAGE := "worker: shutdown grace period elapsed before task finished"

  /** availableBatch: never more than the free slots. */
  function AvailableBatch(cfg: Config, slots: nat): int {
    Min(cfg.claimBatch, cfg.concurrency - slots)
  }

  predicate Enumerates(ids: seq<int>, s: set<int>) {
    Distinct(ids) && (forall id | id in s :: id in ids) && forall id | id in ids :: id in s
  }

  predicate InStage(wk: Worker, n: nat, stage: Stage) {
    n in wk.dispatches && wk.dispatches[n].stage == stage
  }

  /** The rows a heartbeat of these ids would refresh. */
  function RowsRefreshed(db: Db, w: string, ids: seq<int>): set<int> {
    set id | id in db.rows && db.rows[id].BeatBy(w, ids)
  }

  /** The statement a step performs on the table. */
  function EventOf(w: string, wk: Worker, step: Step): Option<Event> {
    match step
    case Granted(at, picked) =>
      if wk.main.Asking? then Some(Claim(w, wk.cfg.queue, wk.main.limit, at, picked)) else None
    case ClaimError(at, picked) =>
      if wk.main.Asking? then Some(Claim(w, wk.cfg.queue, wk.main.limit, at, picked)) else None
    case Release(jitter, written) =>
      if written && wk.main.Releasing? && wk.main.left != []
      then Some(Fail(w, wk.main.left[0], jitter, SHUTDOWN_MESSAGE)) else None
    case Finish(n, report) =>
      if n !in wk.dispatches then None else
      (match report
       case Success => Some(Complete(w, wk.dispatches[n].grant.id))
       case Failure(jitter, message) => Some(Fail(w, wk.dispatches[n].grant.id, jitter, message))
       case Unwritten => None)
    case BeatSend(sent, _) =>
      if sent && wk.beat.Sending? then Some(Heartbeat(w, wk.beat.ids)) else None
    case _ => None
  }

  /** When the step can be taken. A send on the semaphore needs a free slot and a receive a
      taken one; main steps follow the control flow of Run. */
  predicate CanMove(db: Db, w: string, wk: Worker, step: Step) {
    (match step
     case FreeSlot => wk.main.Waiting? && wk.slots < wk.cfg.concurrency
     case Ask => wk.main.Ready? && AvailableBatch(wk.cfg, wk.slots) >= 0
     case Granted(_, _) => wk.main.Asking?
     case ClaimError(_, _) => wk.main.Asking?
     case Launch => wk.main.Launching? && wk.main.batch != [] && wk.slots < wk.cfg.concurrency
     case Stop => wk.main.Waiting?
     case Drained => wk.main.Draining? && wk.waiting == 0
     case GraceOver(left) => wk.main.Draining? && Enumerates(left, wk.inFlight.Keys)
     case Release(_, _) => wk.main.Releasing? && wk.main.left != []
     case AllReleased => wk.main.Releasing? && wk.main.left == []
     case Finish(n, _) => InStage(wk, n, Executing)
     case Unlist(n) => InStage(wk, n, Reported)
     case Unslot(n) => InStage(wk, n, Unlisted) && wk.slots > 0
     case Exit(n) => InStage(wk, n, Unslotted) && wk.waiting > 0
     case BeatStart(ids) => wk.beat.Resting? && Enumerates(ids, wk.inFlight.Keys)
     case BeatSend(_, _) => wk.beat.Sending?
     case BeatGet(_) => wk.beat.Checking? && wk.beat.left != []
     case BeatCancel => wk.beat.Cancelling?
     case BeatDone => wk.beat.Checking? && wk.beat.left == []) &&
    (var e := EventOf(w, wk, step);
     e.Some? ==> ValidJitter(e.value) && Enabled(db, e.value))
  }

  function GrantsOf(db: Db, picked: seq<int>): (batch: seq<Grant>)
    requires forall i | 0 <= i < |picked| :: picked[i] in db.rows
    ensures |batch| == |picked|
  {
    seq(|picked|, i requires 0 <= i < |picked| => Grant(picked[i], db.rows[picked[i]].attempts + 1))
  }

  function WithStage(wk: Worker, n: nat, stage: Stage): Worker
    requires n in wk.dispatches
  {
    wk.(dispatches := wk.dispatches[n := wk.dispatches[n].(stage := stage)])
  }

  function CancelFor(wk: Worker, id: int): set<nat> {
    if id in wk.inFlight then wk.cancelled + {wk.inFlight[id]} else wk.cancelled
  }

  /** The claim is not this worker's any more: the test heartbeatOnce makes after its Get. */
  predicate SeenLost(db: Db, w: string, id: int) {
    id in db.rows && !db.rows[id].OwnedBy(w)
  }

  function Move(db: Db, w: string, wk: Worker, step: Step): Worker
    requires CanMove(db, w, wk, step)
  {
    match step
    case FreeSlot => wk.(main := Ready)
    case Ask => wk.(main := Asking(AvailableBatch(wk.cfg, wk.slots)))
    case Granted(at, picked) =>
      assert forall i | 0 <= i < |picked| :: Candidate(db.rows, wk.cfg.queue, at, picked[i]);
      wk.(main := if picked == [] then Waiting else Launching(GrantsOf(db, picked)))
    case ClaimError(_, _) => wk.(main := Waiting)
    case Launch =>
      var g := wk.main.batch[0];
      var rest := wk.main.batch[1..];
      wk.(main := if rest == [] then Waiting else Launching(rest),
          slots := wk.slots + 1,
          waiting := wk.waiting + 1,
          inFlight := wk.inFlight[g.id := wk.nextDispatch],
          dispatches := wk.dispatches[wk.nextDispatch := Dispatch(g, Executing)],
          nextDispatch := wk.nextDispatch + 1)
    case Stop => wk.(main := Draining)
    case Drained => wk.(main := Stopped)
    case GraceOver(left) => wk.(main := Releasing(left))
    case Release(_, _) =>
      wk.(main := Releasing(wk.main.left[1..]), cancelled := CancelFor(wk, wk.main.left[0]))
    case AllReleased => wk.(main := Stopped)
    case Finish(n, _) => WithStage(wk, n, Reported)
    case Unlist(n) => WithStage(wk, n, Unlisted).(inFlight := wk.inFlight - {wk.dispatches[n].grant.id})
    case Unslot(n) => WithStage(wk, n, Unslotted).(slots := wk.slots - 1)
    case Exit(n) => wk.(dispatches := wk.dispatches - {n}, waiting := wk.waiting - 1)
    case BeatStart(ids) => wk.(beat := if ids == [] then Resting else Sending(ids))
    case BeatSend(sent, replied) =>
      wk.(beat := if !(sent && replied) || |RowsRefreshed(db, w, wk.beat.ids)| == |wk.beat.ids| then Resting
                  else Checking(wk.beat.ids))
    case BeatGet(read) =>
      var id, rest := wk.beat.left[0], wk.beat.left[1..];
      wk.(beat := if read && SeenLost(db, w, id) then Cancelling(id, rest) else Checking(rest))
    case BeatCancel => wk.(beat := Checking(wk.beat.rest), cancelled := CancelFor(wk, wk.beat.id))
    case BeatDone => wk.(beat := Resting)
  }

  function TableAfter(db: Db, w: string, wk: Worker, step: Step): Db
    requires CanMove(db, w, wk, step)
  {
    var e := EventOf(w, wk, step);
    if e.Some? then Next(db, e.value) else db
  }

  // ----- one worker in an arbitrary environment -----

  /** A statement by somebody else: worker identities are distinct. */
  predicate Foreign(e: Event, w: string) {
    match e
    case Claim(v, _, _, _, _) => v != w
    case Heartbeat(v, _) => v != w
    case Complete(v, _) => v != w
    case Fail(v, _, _, _) => v != w
    case _ => true
  }

  /** The table together with one worker; every other worker, the sweepers and the clients
      are the environment. */
  datatype Local = Local(db: Db, wk: Worker)

  datatype LocalStep = Own(step: Step) | Env(e: Event)

  predicate CanTake(l: Local, w: string, s: LocalStep) {
    match s
    case Own(step) => CanMove(l.db, w, l.wk, step)
    case Env(e) => Foreign(e, w) && ValidJitter(e) && Enabled(l.db, e)
  }

  function Take(l: Local, w: string, s: LocalStep): Local
    requires CanTake(l, w, s)
  {
    match s
    case Own(step) => Local(TableAfter(l.db, w, l.wk, step), Move(l.db, w, l.wk, step))
    case Env(e) => Local(Next(l.db, e), l.wk)
  }

  lemma TakeInv(l: Local, w: string, s: LocalStep)
    requires Inv(l.db) && CanTake(l, w, s)
    ensures Inv(Take(l, w, s).db)
  {
    match s {
      case Own(step) =>
        var e := EventOf(w, l.wk, step);
        if e.Some? {
          InvStep(l.db, e.value);
        }
      case Env(e) => InvStep(l.db, e);
    }
  }

  ghost predicate Takes(l: Local, w: string, ss: seq<LocalStep>)
    decreases |ss|, 0
  {
    ss == [] ||
    (Takes(l, w, ss[..|ss| - 1]) && CanTake(Taken(l, w, ss[..|ss| - 1]), w, ss[|ss| - 1]))
  }

  ghost function Taken(l: Local, w: string, ss: seq<LocalStep>): Local
    requires Takes(l, w, ss)
    decreases |ss|, 1
  {
    if ss == [] then l else Take(Taken(l, w, ss[..|ss| - 1]), w, ss[|ss| - 1])
  }

  lemma {:induction false} TakenInv(l: Local, w: string, ss: seq<LocalStep>)
    requires Inv(l.db) && Takes(l, w, ss)
    ensures Inv(Taken(l, w, ss).db)
  {
    if ss != [] {
      TakenInv(l, w, ss[..|ss| - 1]);
      TakeInv(Taken(l, w, ss[..|ss| - 1]), w, ss[|ss| - 1]);
    }
  }
}
