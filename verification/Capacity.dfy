// The worker never claims more than it can start: an invariant of every interleaving.
module Capacity {
  import opened Tasks
  import opened Worker

  /** Dispatch goroutines that still hold a slot of the semaphore. */
  function SlotHolders(wk: Worker): set<nat> {
    set n | n in wk.dispatches && wk.dispatches[n].stage != Unslotted
  }

  ghost predicate CapacityOk(wk: Worker) {
    && wk.cfg.Valid()
    && wk.slots == |SlotHolders(wk)|
    && wk.waiting == |wk.dispatches|
    && wk.slots <= wk.cfg.concurrency
    && (forall n | n in wk.dispatches :: n < wk.nextDispatch)
    && match wk.main
       case Ready => wk.slots < wk.cfg.concurrency
       case Asking(limit) => 1 <= limit <= wk.cfg.claimBatch && wk.slots + limit <= wk.cfg.concurrency
       case Launching(batch) => batch != [] && wk.slots + |batch| <= wk.cfg.concurrency
       case _ => true
  }

  lemma AddOne(s: set<nat>, t: set<nat>, n: nat)
    requires n !in s && t == s + {n}
    ensures |t| == |s| + 1
  {
  }

  lemma SameSet(s: set<nat>, t: set<nat>)
    requires s <= t && t <= s
    ensures s == t
  {
  }

  lemma HoldersAfterAdd(wk: Worker, after: Worker, n: nat, d: Dispatch)
    requires n !in wk.dispatches && after.dispatches == wk.dispatches[n := d] && d.stage != Unslotted
    ensures |SlotHolders(after)| == |SlotHolders(wk)| + 1
    ensures |after.dispatches| == |wk.dispatches| + 1
  {
    assert SlotHolders(after) <= SlotHolders(wk) + {n};
    assert SlotHolders(wk) + {n} <= SlotHolders(after);
    SameSet(SlotHolders(after), SlotHolders(wk) + {n});
    AddOne(SlotHolders(wk), SlotHolders(after), n);
  }

  lemma HoldersAfterLaunch(db: Db, w: string, wk: Worker)
    requires CapacityOk(wk) && CanMove(db, w, wk, Launch)
    ensures |SlotHolders(Move(db, w, wk, Launch))| == wk.slots + 1
    ensures |Move(db, w, wk, Launch).dispatches| == wk.waiting + 1
  {
    HoldersAfterAdd(wk, Move(db, w, wk, Launch), wk.nextDispatch, Dispatch(wk.main.batch[0], Executing));
  }

  lemma HoldersAfterDispatch(db: Db, w: string, wk: Worker, step: Step)
    requires CapacityOk(wk) && CanMove(db, w, wk, step)
    requires step.Finish? || step.Unlist? || step.Unslot? || step.Exit?
    ensures var after := Move(db, w, wk, step);
            |SlotHolders(after)| == wk.slots - (if step.Unslot? then 1 else 0) &&
            |after.dispatches| == wk.waiting - (if step.Exit? then 1 else 0)
  {
    var after := Move(db, w, wk, step);
    var n := step.n;
    if step.Exit? {
      SameSet(SlotHolders(after), SlotHolders(wk));
      assert after.dispatches.Keys == wk.dispatches.Keys - {n};
    } else {
      assert after.dispatches.Keys == wk.dispatches.Keys;
      if step.Unslot? {
        assert SlotHolders(after) + {n} <= SlotHolders(wk);
        assert SlotHolders(wk) <= SlotHolders(after) + {n};
        AddOne(SlotHolders(after), SlotHolders(wk), n);
      } else {
        SameSet(SlotHolders(after), SlotHolders(wk));
      }
    }
  }

  /** Whatever the interleaving, and whether or not store calls succeed, live dispatches never
      exceed Concurrency, and a claim never asks for more than the free slots. */
  lemma CapacityStep(db: Db, w: string, wk: Worker, step: Step)
    requires CapacityOk(wk) && CanMove(db, w, wk, step)
    ensures CapacityOk(Move(db, w, wk, step))
  {
    match step {
      case Launch => HoldersAfterLaunch(db, w, wk);
      case Finish(_, _) => HoldersAfterDispatch(db, w, wk, step);
      case Unlist(_) => HoldersAfterDispatch(db, w, wk, step);
      case Unslot(_) => HoldersAfterDispatch(db, w, wk, step);
      case Exit(_) => HoldersAfterDispatch(db, w, wk, step);
      case _ =>
    }
  }

  /** The blocking operations never block: a launch finds a free slot, the deferred receive
      finds a taken one, the wait group never goes below zero, and the limit passed to Claim
      lies between 1 and the number of free slots at the call. */
  lemma NeverBlocks(db: Db, w: string, wk: Worker)
    requires CapacityOk(wk)
    ensures wk.main.Launching? ==> CanMove(db, w, wk, Launch)
    ensures forall n | InStage(wk, n, Unlisted) :: CanMove(db, w, wk, Unslot(n))
    ensures forall n | InStage(wk, n, Unslotted) :: CanMove(db, w, wk, Exit(n))
    ensures wk.main.Ready? ==> CanMove(db, w, wk, Ask)
    ensures wk.main.Asking? ==> 1 <= wk.main.limit <= wk.cfg.concurrency - wk.slots
    ensures wk.main.Ready? ==>
              var free := wk.cfg.concurrency - wk.slots;
              Move(db, w, wk, Ask).main.Asking? &&
              Move(db, w, wk, Ask).main.limit == if wk.cfg.claimBatch <= free then wk.cfg.claimBatch else free
    ensures wk.main.Waiting? ==> CanMove(db, w, wk, Stop)
    ensures wk.main.Waiting? && wk.slots < wk.cfg.concurrency ==> CanMove(db, w, wk, FreeSlot)
    ensures wk.main.Draining? && wk.dispatches == map[] ==> CanMove(db, w, wk, Drained)
    ensures forall n | InStage(wk, n, Reported) :: CanMove(db, w, wk, Unlist(n))
  {
    forall n | InStage(wk, n, Unlisted) ensures wk.slots > 0 {
      assert n in SlotHolders(wk);
    }
    forall n | InStage(wk, n, Unslotted) ensures wk.waiting > 0 {
      assert n in wk.dispatches.Keys;
    }
  }

  /** A handler may end in any way at any time, and its report may fail. */
  lemma MayFinish(db: Db, w: string, wk: Worker, n: nat, report: Report)
    requires InStage(wk, n, Executing) && (report.Failure? ==> 0.0 <= report.jitter < 1.0)
    ensures CanMove(db, w, wk, Finish(n, report))
  {
  }

  /** Over whole runs of one worker in any environment. */
  lemma {:induction false} CapacityRun(db: Db, cfg: Config, w: string, ss: seq<LocalStep>)
    requires cfg.Valid() && Takes(Local(db, NewWorker(cfg)), w, ss)
    ensures CapacityOk(Taken(Local(db, NewWorker(cfg)), w, ss).wk)
  {
    var start := Local(db, NewWorker(cfg));
    if ss == [] {
      assert SlotHolders(start.wk) == {};
    } else {
      CapacityRun(db, cfg, w, ss[..|ss| - 1]);
      var l := Taken(start, w, ss[..|ss| - 1]);
      match ss[|ss| - 1] {
        case Own(step) => CapacityStep(l.db, w, l.wk, step);
        case Env(_) =>
      }
    }
  }
}
