// Graceful shutdown: when Run returns, no row is claimed by the worker any more.
module Shutdown {
  import opened Wrappers
  import opened Tasks
  import opened Effects
  import opened Worker
  import opened Capacity

  predicate InBatch(wk: Worker, id: int) {
    wk.main.Launching? && exists i | 0 <= i < |wk.main.batch| :: wk.main.batch[i].id == id
  }

  predicate Owns(db: Db, w: string, id: int) {
    id in db.rows && db.rows[id].OwnedBy(w)
  }

  /** A dispatch whose deferred remove has not run yet. */
  predicate Listed(wk: Worker, n: nat) {
    InStage(wk, n, Executing) || InStage(wk, n, Reported)
  }

  /** Where the worker can still find a task it has claimed. */
  predicate Findable(wk: Worker, id: int) {
    match wk.main
    case Releasing(left) => id in left
    case Stopped => false
    case _ => id in wk.inFlight || InBatch(wk, id)
  }

  /** Every row claimed by the worker can still be found by it. */
  ghost predicate Covered(db: Db, w: string, wk: Worker) {
    forall id | Owns(db, w, id) :: Findable(wk, id)
  }

  /** The in-flight map and the dispatch goroutines agree, and a dispatch that has reported
      owns nothing. */
  ghost predicate Tracked(db: Db, w: string, wk: Worker) {
    && (forall id | id in wk.inFlight ::
          Listed(wk, wk.inFlight[id]) && wk.dispatches[wk.inFlight[id]].grant.id == id)
    && (forall n | Listed(wk, n) ::
          wk.dispatches[n].grant.id in wk.inFlight && wk.inFlight[wk.dispatches[n].grant.id] == n)
    && (forall n | InStage(wk, n, Reported) :: !Owns(db, w, wk.dispatches[n].grant.id))
    && (wk.main.Launching? ==>
          (forall i, j | 0 <= i < j < |wk.main.batch| :: wk.main.batch[i].id != wk.main.batch[j].id) &&
          (forall i | 0 <= i < |wk.main.batch| :: wk.main.batch[i].id !in wk.inFlight))
  }

  /** The hypotheses: every write takes effect, no claim takes effect without its reply arriving,
      and no task is claimed again by this worker while an earlier dispatch of it has yet to
      leave the in-flight map. */
  ghost predicate Orderly(db: Db, w: string, wk: Worker, step: Step) {
    (match step
     case ClaimError(_, picked) => picked == []
     case Release(_, written) => written
     case Finish(_, report) => !report.Unwritten?
     case Granted(_, picked) => forall id | id in picked :: id !in wk.inFlight
     case _ => true) &&
    (var e := EventOf(w, wk, step); e.Some? ==> !Errors(db, e.value))
  }

  ghost predicate ShutdownOk(db: Db, w: string, wk: Worker) {
    CapacityOk(wk) && Covered(db, w, wk) && Tracked(db, w, wk)
  }

  /** The environment never claims for the worker: its claims can only shrink. */
  lemma OwnsShrinks(db: Db, w: string, e: Event, id: int)
    requires Inv(db) && ValidJitter(e) && Enabled(db, e)
    requires Foreign(e, w) || e.Complete? || e.Fail? || e.Heartbeat?
    requires Owns(Next(db, e), w, id)
    ensures Owns(db, w, id)
    ensures (e.Complete? || e.Fail?) && e.worker == w && !Errors(db, e) ==> e.id != id
  {
    if id in db.rows {
      RowStep(db, e, id);
    }
  }

  lemma ShutdownEnv(db: Db, w: string, wk: Worker, e: Event)
    requires Inv(db) && ShutdownOk(db, w, wk) && Foreign(e, w) && ValidJitter(e) && Enabled(db, e)
    ensures ShutdownOk(Next(db, e), w, wk)
  {
    forall id | Owns(Next(db, e), w, id) ensures Owns(db, w, id) {
      OwnsShrinks(db, w, e, id);
    }
  }

  lemma ShutdownGranted(db: Db, w: string, wk: Worker, step: Step)
    requires Inv(db) && ShutdownOk(db, w, wk) && CanMove(db, w, wk, step) && Orderly(db, w, wk, step)
    requires step.Granted? || step.ClaimError?
    ensures Covered(TableAfter(db, w, wk, step), w, Move(db, w, wk, step))
    ensures Tracked(TableAfter(db, w, wk, step), w, Move(db, w, wk, step))
  {
    var e := EventOf(w, wk, step).value;
    var after, db' := Move(db, w, wk, step), TableAfter(db, w, wk, step);
    forall id | id in db.rows ensures Owns(db', w, id) <==> Owns(db, w, id) || id in step.picked {
      RowStep(db, e, id);
    }
    forall id | Owns(db', w, id) ensures id in after.inFlight || InBatch(after, id) {
      if id in step.picked {
        var i :| 0 <= i < |step.picked| && step.picked[i] == id;
        assert after.main.batch[i].id == id;
      } else {
        assert Owns(db, w, id);
      }
    }
    assert forall i | 0 <= i < |step.picked| :: step.picked[i] in step.picked;
    forall n | InStage(after, n, Reported) ensures !Owns(db', w, after.dispatches[n].grant.id) {
      assert Listed(wk, n);
    }
  }

  lemma ShutdownLaunch(db: Db, w: string, wk: Worker)
    requires ShutdownOk(db, w, wk) && CanMove(db, w, wk, Launch)
    ensures Covered(db, w, Move(db, w, wk, Launch))
    ensures Tracked(db, w, Move(db, w, wk, Launch))
  {
    var after := Move(db, w, wk, Launch);
    var g0 := wk.main.batch[0];
    assert g0.id !in wk.inFlight;
    forall id | Owns(db, w, id) ensures id in after.inFlight || InBatch(after, id) {
      if InBatch(wk, id) {
        var i :| 0 <= i < |wk.main.batch| && wk.main.batch[i].id == id;
        if i > 0 {
          assert after.main.batch[i - 1].id == id;
        }
      }
    }
    forall n | Listed(after, n)
      ensures after.dispatches[n].grant.id in after.inFlight && after.inFlight[after.dispatches[n].grant.id] == n
    {
      assert n == wk.nextDispatch || Listed(wk, n);
    }
    forall id | id in after.inFlight
      ensures Listed(after, after.inFlight[id]) && after.dispatches[after.inFlight[id]].grant.id == id
    {
      if id != g0.id {
        assert Listed(wk, wk.inFlight[id]);
      }
    }
    forall n | InStage(after, n, Reported) ensures InStage(wk, n, Reported) {
    }
    forall i | after.main.Launching? && 0 <= i < |after.main.batch|
      ensures after.main.batch[i] == wk.main.batch[i + 1] && after.main.batch[i].id !in after.inFlight
    {
    }
  }

  lemma ShutdownFinish(db: Db, w: string, wk: Worker, n: nat, report: Report)
    requires Inv(db) && ShutdownOk(db, w, wk)
    requires CanMove(db, w, wk, Finish(n, report)) && Orderly(db, w, wk, Finish(n, report))
    ensures Covered(TableAfter(db, w, wk, Finish(n, report)), w, Move(db, w, wk, Finish(n, report)))
    ensures Tracked(TableAfter(db, w, wk, Finish(n, report)), w, Move(db, w, wk, Finish(n, report)))
  {
    var step := Finish(n, report);
    var e := EventOf(w, wk, step).value;
    var after, db' := Move(db, w, wk, step), TableAfter(db, w, wk, step);
    forall id | Owns(db', w, id) ensures Owns(db, w, id) && id != wk.dispatches[n].grant.id {
      OwnsShrinks(db, w, e, id);
    }
    assert forall m :: Listed(after, m) <==> Listed(wk, m);
  }

  lemma ShutdownUnlist(db: Db, w: string, wk: Worker, n: nat)
    requires ShutdownOk(db, w, wk) && CanMove(db, w, wk, Unlist(n))
    ensures Covered(db, w, Move(db, w, wk, Unlist(n)))
    ensures Tracked(db, w, Move(db, w, wk, Unlist(n)))
  {
    var after := Move(db, w, wk, Unlist(n));
    var gone := wk.dispatches[n].grant.id;
    assert Listed(wk, n) && wk.inFlight[gone] == n && !Owns(db, w, gone);
    forall m | Listed(after, m) ensures Listed(wk, m) && m != n && after.dispatches[m].grant.id != gone {
      assert Listed(wk, m) && wk.inFlight[wk.dispatches[m].grant.id] == m;
    }
    forall id | id in after.inFlight ensures Listed(after, after.inFlight[id]) {
      assert wk.inFlight[id] != n;
    }
  }

  lemma ShutdownRelease(db: Db, w: string, wk: Worker, step: Step)
    requires Inv(db) && ShutdownOk(db, w, wk) && step.Release?
    requires CanMove(db, w, wk, step) && Orderly(db, w, wk, step)
    ensures Covered(TableAfter(db, w, wk, step), w, Move(db, w, wk, step))
    ensures Tracked(TableAfter(db, w, wk, step), w, Move(db, w, wk, step))
  {
    var e := EventOf(w, wk, step).value;
    var after, db' := Move(db, w, wk, step), TableAfter(db, w, wk, step);
    forall id | Owns(db', w, id) ensures Owns(db, w, id) && id != wk.main.left[0] {
      OwnsShrinks(db, w, e, id);
    }
    assert wk.main.left == [wk.main.left[0]] + after.main.left;
    assert forall m :: Listed(after, m) <==> Listed(wk, m);
  }

  lemma NoKeys(m: map<nat, Dispatch>)
    requires |m| == 0
    ensures forall n :: n !in m
  {
  }

  lemma ShutdownDrained(db: Db, w: string, wk: Worker)
    requires ShutdownOk(db, w, wk) && CanMove(db, w, wk, Drained)
    ensures forall id :: !Owns(db, w, id)
  {
    NoKeys(wk.dispatches);
    assert forall id | id in wk.inFlight :: Listed(wk, wk.inFlight[id]);
    assert forall id | Owns(db, w, id) :: Findable(wk, id);
  }

  /** Steps of the heartbeat loop touch neither the claim loop nor the dispatches. */
  predicate BeatStep(step: Step) {
    step.BeatStart? || step.BeatSend? || step.BeatGet? || step.BeatCancel? || step.BeatDone?
  }

  lemma ShutdownBeat(db: Db, w: string, wk: Worker, step: Step)
    requires Inv(db) && ShutdownOk(db, w, wk) && CanMove(db, w, wk, step) && BeatStep(step)
    ensures Covered(TableAfter(db, w, wk, step), w, Move(db, w, wk, step))
    ensures Tracked(TableAfter(db, w, wk, step), w, Move(db, w, wk, step))
  {
    var after, db' := Move(db, w, wk, step), TableAfter(db, w, wk, step);
    assert after.main == wk.main && after.inFlight == wk.inFlight && after.dispatches == wk.dispatches;
    var e := EventOf(w, wk, step);
    forall id | Owns(db', w, id) ensures Owns(db, w, id) && Findable(after, id) {
      if e.Some? {
        OwnsShrinks(db, w, e.value, id);
      }
      assert Findable(wk, id);
    }
    assert forall m :: Listed(after, m) <==> Listed(wk, m);
  }

  /** Nothing changes when what is claimed, listed and found stays as it was. */
  lemma ShutdownSame(db: Db, w: string, wk: Worker, after: Worker)
    requires Covered(db, w, wk) && Tracked(db, w, wk)
    requires after.main == wk.main && after.inFlight == wk.inFlight
    requires forall m | Listed(wk, m) :: Listed(after, m) && after.dispatches[m] == wk.dispatches[m]
    requires forall m | Listed(after, m) :: Listed(wk, m)
    ensures Covered(db, w, after) && Tracked(db, w, after)
  {
    forall id | Owns(db, w, id) ensures Findable(after, id) {
      assert Findable(wk, id);
    }
    assert forall m | InStage(after, m, Reported) :: Listed(after, m);
  }

  /** The last two deferred calls of a dispatch that has left the in-flight map. */
  lemma ShutdownExit(db: Db, w: string, wk: Worker, step: Step)
    requires ShutdownOk(db, w, wk) && CanMove(db, w, wk, step) && (step.Unslot? || step.Exit?)
    ensures Covered(db, w, Move(db, w, wk, step))
    ensures Tracked(db, w, Move(db, w, wk, step))
  {
    ShutdownSame(db, w, wk, Move(db, w, wk, step));
  }

  predicate MainStep(step: Step) {
    step.FreeSlot? || step.Ask? || step.Stop? || step.Drained? || step.GraceOver? || step.AllReleased?
  }

  lemma ShutdownMain(db: Db, w: string, wk: Worker, step: Step)
    requires ShutdownOk(db, w, wk) && CanMove(db, w, wk, step) && MainStep(step)
    ensures Covered(db, w, Move(db, w, wk, step))
    ensures Tracked(db, w, Move(db, w, wk, step))
  {
    var after := Move(db, w, wk, step);
    if step.Drained? {
      ShutdownDrained(db, w, wk);
    }
    assert after.inFlight == wk.inFlight && after.dispatches == wk.dispatches;
    assert forall m :: Listed(after, m) <==> Listed(wk, m);
    forall id | Owns(db, w, id) ensures Findable(after, id) {
      assert Findable(wk, id);
    }
  }

  lemma ShutdownMove(db: Db, w: string, wk: Worker, step: Step)
    requires Inv(db) && ShutdownOk(db, w, wk) && CanMove(db, w, wk, step) && Orderly(db, w, wk, step)
    ensures Covered(TableAfter(db, w, wk, step), w, Move(db, w, wk, step))
    ensures Tracked(TableAfter(db, w, wk, step), w, Move(db, w, wk, step))
  {
    if BeatStep(step) {
      ShutdownBeat(db, w, wk, step);
    } else if MainStep(step) {
      ShutdownMain(db, w, wk, step);
    } else {
      match step {
        case Granted(_, _) => ShutdownGranted(db, w, wk, step);
        case ClaimError(_, _) => ShutdownGranted(db, w, wk, step);
        case Launch => ShutdownLaunch(db, w, wk);
        case Finish(n, report) => ShutdownFinish(db, w, wk, n, report);
        case Unlist(n) => ShutdownUnlist(db, w, wk, n);
        case Release(_, _) => ShutdownRelease(db, w, wk, step);
        case Unslot(_) => ShutdownExit(db, w, wk, step);
        case Exit(_) => ShutdownExit(db, w, wk, step);
      }
    }
  }

  /** At every step, each row claimed by the worker is in its in-flight map or in the batch
      being launched; while releasing, in the list still to release. */
  lemma ShutdownStep(db: Db, w: string, wk: Worker, step: Step)
    requires Inv(db) && ShutdownOk(db, w, wk) && CanMove(db, w, wk, step) && Orderly(db, w, wk, step)
    ensures ShutdownOk(TableAfter(db, w, wk, step), w, Move(db, w, wk, step))
  {
    CapacityStep(db, w, wk, step);
    ShutdownMove(db, w, wk, step);
  }

  ghost predicate OrderlyRun(l: Local, w: string, ss: seq<LocalStep>)
    requires Takes(l, w, ss)
  {
    ss == [] ||
    (OrderlyRun(l, w, ss[..|ss| - 1]) &&
     var last := ss[|ss| - 1];
     var before := Taken(l, w, ss[..|ss| - 1]);
     last.Own? ==> Orderly(before.db, w, before.wk, last.step))
  }

  lemma {:induction false} ShutdownRun(l: Local, w: string, ss: seq<LocalStep>)
    requires Inv(l.db) && ShutdownOk(l.db, w, l.wk)
    requires Takes(l, w, ss) && OrderlyRun(l, w, ss)
    ensures Inv(Taken(l, w, ss).db)
    ensures ShutdownOk(Taken(l, w, ss).db, w, Taken(l, w, ss).wk)
  {
    if ss != [] {
      var front := ss[..|ss| - 1];
      ShutdownRun(l, w, front);
      TakenInv(l, w, ss);
      var before := Taken(l, w, front);
      match ss[|ss| - 1] {
        case Own(step) => ShutdownStep(before.db, w, before.wk, step);
        case Env(e) => ShutdownEnv(before.db, w, before.wk, e);
      }
    }
  }

  /** Shutdown leaves nothing claimed. A fresh worker runs in an arbitrary environment until
      Run returns, by either path. If its writes took effect, no claim took effect without its
      reply, and it never claimed a task whose earlier dispatch was still listed, then no row
      is claimed by it. */
  lemma NothingLeftClaimed(db: Db, cfg: Config, w: string, ss: seq<LocalStep>)
    requires Inv(db) && cfg.Valid() && forall id :: !Owns(db, w, id)
    requires Takes(Local(db, NewWorker(cfg)), w, ss) && OrderlyRun(Local(db, NewWorker(cfg)), w, ss)
    requires Taken(Local(db, NewWorker(cfg)), w, ss).wk.main == Stopped
    ensures forall id :: !Owns(Taken(Local(db, NewWorker(cfg)), w, ss).db, w, id)
  {
    assert SlotHolders(NewWorker(cfg)) == {};
    ShutdownRun(Local(db, NewWorker(cfg)), w, ss);
  }

  /** After Run has returned, whatever a dispatch that is still running reports has no effect
      on the table. */
  lemma LateReportsVoid(db: Db, w: string, wk: Worker, n: nat, report: Report)
    requires Inv(db) && ShutdownOk(db, w, wk) && wk.main == Stopped
    requires CanMove(db, w, wk, Finish(n, report))
    ensures TableAfter(db, w, wk, Finish(n, report)).rows == db.rows
  {
    var e := EventOf(w, wk, Finish(n, report));
    if e.Some? {
      assert !Owns(db, w, wk.dispatches[n].grant.id);
      forall id | id in db.rows.Keys ensures Next(db, e.value).rows[id] == db.rows[id] {
        RowStep(db, e.value, id);
      }
    }
  }

  /** A released row keeps its attempts, carries the shutdown error, and is pending or dead. */
  lemma ReleasedRow(db: Db, w: string, wk: Worker, step: Step)
    requires Inv(db) && step.Release? && CanMove(db, w, wk, step) && Orderly(db, w, wk, step)
    requires Owns(db, w, wk.main.left[0])
    ensures var t, u := db.rows[wk.main.left[0]], TableAfter(db, w, wk, step).rows[wk.main.left[0]];
            FailedTo(t, u, w, "worker: shutdown grace period elapsed before task finished", step.jitter, db.now)
  {
    var id := wk.main.left[0];
    assert Matches(db.rows[id], EventOf(w, wk, step).value, db.now);
    FailEffect(db, w, id, step.jitter, SHUTDOWN_MESSAGE, id);
  }

  /** The deferred remove of an old dispatch is harmless if and only if the worker has not
      claimed the same task again in the meantime: removal is by task id, not by claim. */
  lemma RemoveHarmlessIff(db: Db, w: string, wk: Worker, n: nat)
    requires Covered(db, w, wk) && CanMove(db, w, wk, Unlist(n))
    requires !wk.main.Releasing? && !wk.main.Stopped?
    ensures Covered(db, w, Move(db, w, wk, Unlist(n))) <==>
            (Owns(db, w, wk.dispatches[n].grant.id) ==> InBatch(wk, wk.dispatches[n].grant.id))
  {
    var after := Move(db, w, wk, Unlist(n));
    var gone := wk.dispatches[n].grant.id;
    assert forall id :: InBatch(after, id) <==> InBatch(wk, id);
    assert gone !in after.inFlight;
    if Owns(db, w, gone) ==> InBatch(wk, gone) {
      forall id | Owns(db, w, id) ensures id in after.inFlight || InBatch(after, id) {
      }
    }
  }

  /** Exactly when a claim error is harmless: every row it has claimed unseen has an entry in the
      in-flight map already. In particular it is harmless when the claim took no effect. */
  lemma LostReplyHarmlessIff(db: Db, w: string, wk: Worker, at: int, picked: seq<int>)
    requires Inv(db) && ShutdownOk(db, w, wk) && CanMove(db, w, wk, ClaimError(at, picked))
    ensures Covered(TableAfter(db, w, wk, ClaimError(at, picked)), w, Move(db, w, wk, ClaimError(at, picked))) <==>
            forall id | id in picked :: id in wk.inFlight
  {
    var step := ClaimError(at, picked);
    var e := EventOf(w, wk, step).value;
    var after, db' := Move(db, w, wk, step), TableAfter(db, w, wk, step);
    forall id | id in picked ensures Owns(db', w, id) {
      RowStep(db, e, id);
    }
    forall id | Owns(db', w, id) ensures Owns(db, w, id) || id in picked {
      if id in db.rows {
        RowStep(db, e, id);
      }
    }
    assert forall id | Owns(db, w, id) :: Findable(wk, id);
    if forall id | id in picked :: id in wk.inFlight {
      forall id | Owns(db', w, id) ensures Findable(after, id) {
      }
    } else {
      var id :| id in picked && id !in wk.inFlight;
      assert Owns(db', w, id) && !Findable(after, id);
    }
  }

  // ----- without the hypotheses -----

  /** The hypothesis a run breaks: a task is claimed again before the earlier dispatch has left
      the map, or a claim takes effect and its reply is lost. */
  datatype Flaw = Reclaim | LostReply

  /** The writes of the step, if any, take effect; and if the flaw is a lost reply, no dispatch
      runs its remove at all. */
  predicate Diligent(s: LocalStep, flaw: Flaw) {
    s.Own? ==> match s.step
               case ClaimError(_, picked) => flaw.LostReply? || picked == []
               case Release(_, written) => written
               case Finish(_, report) => !report.Unwritten?
               case Unlist(_) => flaw.Reclaim?
               case _ => true
  }

  /** Though every write takes effect, Run can return while the worker still has a claim on `id`. */
  ghost predicate CanEscape(l: Local, w: string, id: int, flaw: Flaw) {
    exists ss :: Takes(l, w, ss) && (forall s | s in ss :: Diligent(s, flaw)) &&
      Taken(l, w, ss).wk.main == Stopped && Owns(Taken(l, w, ss).db, w, id)
  }

  lemma StepEscapes(l: Local, w: string, s: LocalStep, id: int, flaw: Flaw)
    requires CanTake(l, w, s) && Diligent(s, flaw) && CanEscape(Take(l, w, s), w, id, flaw)
    ensures CanEscape(l, w, id, flaw)
  {
    var mid := Take(l, w, s);
    var ss :| Takes(mid, w, ss) && (forall s | s in ss :: Diligent(s, flaw)) &&
      Taken(mid, w, ss).wk.main == Stopped && Owns(Taken(mid, w, ss).db, w, id);
    TakesPrepend(l, w, s, ss);
  }

  lemma TakesSnoc(l: Local, w: string, ss: seq<LocalStep>, s: LocalStep)
    requires Takes(l, w, ss) && CanTake(Taken(l, w, ss), w, s)
    ensures Takes(l, w, ss + [s]) && Taken(l, w, ss + [s]) == Take(Taken(l, w, ss), w, s)
  {
    assert (ss + [s])[..|ss + [s]| - 1] == ss;
  }

  lemma {:induction false} TakesPrepend(l: Local, w: string, s: LocalStep, ss: seq<LocalStep>)
    requires CanTake(l, w, s) && Takes(Take(l, w, s), w, ss)
    ensures Takes(l, w, [s] + ss) && Taken(l, w, [s] + ss) == Taken(Take(l, w, s), w, ss)
    decreases |ss|
  {
    if ss == [] {
      TakesSnoc(l, w, [], s);
      assert [s] + ss == [] + [s];
    } else {
      TakesPrepend(l, w, s, ss[..|ss| - 1]);
      TakesSnoc(l, w, [s] + ss[..|ss| - 1], ss[|ss| - 1]);
      assert [s] + ss == ([s] + ss[..|ss| - 1]) + [ss[|ss| - 1]];
    }
  }

  lemma AllReleasedEscapes(l: Local, w: string, id: int)
    requires l.wk.main == Waiting && l.wk.inFlight == map[] && Owns(l.db, w, id)
    ensures CanEscape(l, w, id, Reclaim)
  {
    var l1 := Take(l, w, Own(Stop));
    var l2 := Take(l1, w, Own(GraceOver([])));
    var l3 := Take(l2, w, Own(AllReleased));
    assert Takes(l3, w, []) && Taken(l3, w, []) == l3;
    assert CanEscape(l3, w, id, Reclaim);
    StepEscapes(l2, w, Own(AllReleased), id, Reclaim);
    StepEscapes(l1, w, Own(GraceOver([])), id, Reclaim);
    StepEscapes(l, w, Own(Stop), id, Reclaim);
  }

  lemma UnlistEscapes(l: Local, w: string, n: nat, id: int)
    requires l.wk.main == Waiting && l.wk.inFlight.Keys == {id} && Owns(l.db, w, id)
    requires InStage(l.wk, n, Reported) && l.wk.dispatches[n].grant.id == id
    ensures CanEscape(l, w, id, Reclaim)
  {
    var l1 := Take(l, w, Own(Unlist(n)));
    assert forall i :: i !in l1.wk.inFlight;
    assert l1.wk.inFlight == map[];
    AllReleasedEscapes(l1, w, id);
    StepEscapes(l, w, Own(Unlist(n)), id, Reclaim);
  }

  /** A task that failed is claimed again by the same worker before its old dispatch has run
      its deferred remove: the remove then deletes the new entry, shutdown overlooks the
      running task, and Run returns with the row still claimed. */
  lemma ReclaimEscapesShutdown(l: Local, w: string, n: nat, id: int)
    requires l.wk.main.Asking? && l.wk.main.limit >= 1 && l.wk.slots < l.wk.cfg.concurrency
    requires l.wk.inFlight.Keys == {id} && n != l.wk.nextDispatch
    requires InStage(l.wk, n, Reported) && l.wk.dispatches[n].grant.id == id
    requires Candidate(l.db.rows, l.wk.cfg.queue, l.db.now, id) && l.db.rows[id].id == id
    ensures CanEscape(l, w, id, Reclaim)
  {
    var granted := Own(Granted(l.db.now, [id]));
    var l1 := Take(l, w, granted);
    var g := Grant(id, l.db.rows[id].attempts + 1);
    assert GrantsOf(l.db, [id]) == [g];
    assert l1.wk.main == Launching([g]);
    var l2 := Take(l1, w, Own(Launch));
    assert l2.wk.inFlight.Keys == {id} + l.wk.inFlight.Keys;
    UnlistEscapes(l2, w, n, id);
    StepEscapes(l1, w, Own(Launch), id, Reclaim);
    StepEscapes(l, w, granted, id, Reclaim);
  }

  // ----- and such states are reached -----

  /** Dispatch 0 runs task 1, and the worker asks for more. */
  function BusyAsking(cfg: Config, stage: Stage): Worker
    requires cfg.concurrency >= 1
  {
    Worker(cfg, Asking(AvailableBatch(cfg, 1)), 1, 1,
           map[1 := 0], map[0 := Dispatch(Grant(1, 1), stage)], 1, {}, Resting)
  }

  function BusyWaiting(cfg: Config): Worker
    requires cfg.concurrency >= 1
  {
    BusyAsking(cfg, Executing).(main := Waiting)
  }

  function OneTask(t: Task, now: int): Db {
    Db(map[1 := t], 2, now)
  }

  lemma AskingEscapes(db: Db, cfg: Config, w: string)
    requires cfg.concurrency >= 2 && cfg.claimBatch >= 1
    requires CanEscape(Local(db, BusyAsking(cfg, Executing)), w, 1, Reclaim)
    ensures CanEscape(Local(db, BusyWaiting(cfg)), w, 1, Reclaim)
  {
    var l := Local(db, BusyWaiting(cfg));
    var free, ask := Own(FreeSlot), Own(Ask);
    assert Take(Take(l, w, free), w, ask) == Local(db, BusyAsking(cfg, Executing));
    StepEscapes(Take(l, w, free), w, ask, 1, Reclaim);
    StepEscapes(l, w, free, 1, Reclaim);
  }

  lemma FailureEscapes(t: Task, now: int, cfg: Config, w: string)
    requires cfg.concurrency >= 2 && cfg.claimBatch >= 1 && cfg.queue == t.queue
    requires t.id == 1 && t.status == Running && t.OwnedBy(w) && !t.Exhausted() && !t.Overflows()
    ensures CanEscape(Local(OneTask(t, now), BusyAsking(cfg, Executing)), w, 1, Reclaim)
  {
    var l := Local(OneTask(t, now), BusyAsking(cfg, Executing));
    var fails := Own(Finish(0, Failure(0.0, "")));
    var l1 := Take(l, w, fails);
    assert l1.db.rows[1] == Released(t, now, 0.0, "");
    assert l1.wk == BusyAsking(cfg, Reported);
    ReclaimEscapesShutdown(l1, w, 0, 1);
    StepEscapes(l, w, fails, 1, Reclaim);
  }

  /** The steps of a claim loop that meets no error, and other processes. */
  predicate Quiet(ss: seq<LocalStep>) {
    forall s | s in ss :: s.Env? || s.step.FreeSlot? || s.step.Ask? || s.step.Granted? || s.step.Launch?
  }

  lemma ThenAsks(l: Local, w: string, xs: seq<LocalStep>, t: Task, now: int, cfg: Config) returns (ss: seq<LocalStep>)
    requires cfg.Valid() && Takes(l, w, xs) && Quiet(xs) && Taken(l, w, xs) == Local(OneTask(t, now), NewWorker(cfg))
    ensures Takes(l, w, ss) && Quiet(ss)
    ensures Taken(l, w, ss) == Local(OneTask(t, now), NewWorker(cfg).(main := Asking(AvailableBatch(cfg, 0))))
  {
    TakesSnoc(l, w, xs, Own(FreeSlot));
    TakesSnoc(l, w, xs + [Own(FreeSlot)], Own(Ask));
    ss := xs + [Own(FreeSlot)] + [Own(Ask)];
  }

  lemma ThenLaunches(l: Local, w: string, xs: seq<LocalStep>, t: Task, now: int, cfg: Config)
    returns (ss: seq<LocalStep>)
    requires cfg.Valid() && cfg.queue == t.queue && t.id == 1 && t.Due(now) && t.attempts == 0
    requires Takes(l, w, xs) && Quiet(xs)
    requires Taken(l, w, xs) == Local(OneTask(t, now), NewWorker(cfg).(main := Asking(AvailableBatch(cfg, 0))))
    ensures Takes(l, w, ss) && Quiet(ss)
    ensures Taken(l, w, ss) == Local(OneTask(Claimed(t, w, now), now), BusyWaiting(cfg))
  {
    var asking, granted := Taken(l, w, xs), Own(Granted(now, [1]));
    assert GrantsOf(asking.db, [1]) == [Grant(1, 1)];
    assert Take(asking, w, granted).db == OneTask(Claimed(t, w, now), now);
    TakesSnoc(l, w, xs, granted);
    TakesSnoc(l, w, xs + [granted], Own(Launch));
    ss := xs + [granted] + [Own(Launch)];
  }

  /** A run of a fresh worker over an empty table in which a task is enqueued, claimed and
      launched. */
  lemma LaunchFromTheStart(t0: int, sub: Submission, cfg: Config, w: string) returns (ss: seq<LocalStep>)
    requires Acceptable(sub) && sub.runAt == None && sub.queue == cfg.queue && cfg.Valid()
    ensures Takes(Local(Init(t0), NewWorker(cfg)), w, ss) && Quiet(ss)
    ensures Taken(Local(Init(t0), NewWorker(cfg)), w, ss) ==
            Local(OneTask(Claimed(NewTask(sub, 1, t0), w, t0), t0), BusyWaiting(cfg))
  {
    var t := NewTask(sub, 1, t0);
    var l := Local(Init(t0), NewWorker(cfg));
    assert Take(l, w, Env(Insert(sub))) == Local(OneTask(t, t0), NewWorker(cfg));
    TakesSnoc(l, w, [], Env(Insert(sub)));
    ss := ThenAsks(l, w, [] + [Env(Insert(sub))], t, t0, cfg);
    ss := ThenLaunches(l, w, ss, t, t0, cfg);
  }

  lemma {:induction false} RunEscapes(l: Local, w: string, xs: seq<LocalStep>, id: int, flaw: Flaw)
    requires Takes(l, w, xs) && Quiet(xs) && CanEscape(Taken(l, w, xs), w, id, flaw)
    ensures CanEscape(l, w, id, flaw)
  {
    if xs != [] {
      assert xs[|xs| - 1] in xs;
      StepEscapes(Taken(l, w, xs[..|xs| - 1]), w, xs[|xs| - 1], id, flaw);
      RunEscapes(l, w, xs[..|xs| - 1], id, flaw);
    }
  }

  /** From an empty table and a fresh worker with room for two, any task that may be retried
      can end up claimed by nobody alive, though no store call ever failed. */
  lemma EscapesFromTheStart(t0: int, sub: Submission, cfg: Config, w: string)
    requires Acceptable(sub) && sub.runAt == None && sub.maxAttempts != 1 && sub.queue == cfg.queue
    requires cfg.concurrency >= 2 && cfg.claimBatch >= 1
    ensures CanEscape(Local(Init(t0), NewWorker(cfg)), w, 1, Reclaim)
  {
    var t := Claimed(NewTask(sub, 1, t0), w, t0);
    var ss := LaunchFromTheStart(t0, sub, cfg, w);
    FailureEscapes(t, t0, cfg, w);
    AskingEscapes(OneTask(t, t0), cfg, w);
    RunEscapes(Local(Init(t0), NewWorker(cfg)), w, ss, 1, Reclaim);
  }

  /** The claim takes effect, the context is cancelled, and the error leads straight to shutdown:
      nothing is in flight, so Run returns at once with the row claimed. */
  lemma LostReplyEscapes(t: Task, now: int, cfg: Config, w: string)
    requires cfg.Valid() && cfg.queue == t.queue && t.id == 1 && t.Due(now)
    ensures CanEscape(Local(OneTask(t, now), NewWorker(cfg)), w, 1, LostReply)
  {
    var l := Local(OneTask(t, now), NewWorker(cfg));
    var l1 := Take(l, w, Own(FreeSlot));
    var l2 := Take(l1, w, Own(Ask));
    var error := Own(ClaimError(now, [1]));
    var l3 := Take(l2, w, error);
    assert l3.db.rows[1] == Claimed(t, w, now);
    var l4 := Take(l3, w, Own(Stop));
    var l5 := Take(l4, w, Own(Drained));
    assert Takes(l5, w, []) && Taken(l5, w, []) == l5;
    assert CanEscape(l5, w, 1, LostReply);
    StepEscapes(l4, w, Own(Drained), 1, LostReply);
    StepEscapes(l3, w, Own(Stop), 1, LostReply);
    StepEscapes(l2, w, error, 1, LostReply);
    StepEscapes(l1, w, Own(Ask), 1, LostReply);
    StepEscapes(l, w, Own(FreeSlot), 1, LostReply);
  }

  /** From an empty table and a fresh worker, with any task at all. */
  lemma LostReplyFromTheStart(t0: int, sub: Submission, cfg: Config, w: string)
    requires Acceptable(sub) && sub.runAt == None && sub.queue == cfg.queue && cfg.Valid()
    ensures CanEscape(Local(Init(t0), NewWorker(cfg)), w, 1, LostReply)
  {
    var t := NewTask(sub, 1, t0);
    var l := Local(Init(t0), NewWorker(cfg));
    assert Take(l, w, Env(Insert(sub))) == Local(OneTask(t, t0), NewWorker(cfg));
    LostReplyEscapes(t, t0, cfg, w);
    StepEscapes(l, w, Env(Insert(sub)), 1, LostReply);
  }
}
