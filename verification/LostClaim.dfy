// Lost-claim detection: what the heartbeat loop can and cannot conclude.
module LostClaim {
  import opened Wrappers
  import opened Tasks
  import opened Worker
  import opened DoubleExecution
  import opened Shutdown

  function Elements(ids: seq<int>): set<int> {
    set id | id in ids
  }

  lemma {:induction false} ElementsCount(ids: seq<int>)
    requires Distinct(ids)
    ensures |Elements(ids)| == |ids|
  {
    if ids != [] {
      var front, last := ids[..|ids| - 1], ids[|ids| - 1];
      ElementsCount(front);
      assert ids == front + [last];
      assert last !in front;
      assert Elements(ids) == Elements(front) + {last};
    }
  }

  lemma SubsetCount(s: set<int>, t: set<int>)
    requires s <= t
    ensures |s| == |t| <==> t <= s
  {
    assert t == s + (t - s);
  }

  /** The heartbeat returns the number of ids sent exactly when the worker still owns every
      one of those rows. */
  lemma FullCountIff(db: Db, w: string, ids: seq<int>)
    requires Inv(db) && Distinct(ids)
    ensures |RowsRefreshed(db, w, ids)| == |ids| <==>
            forall id | id in ids :: id in db.rows && db.rows[id].OwnedBy(w)
  {
    ElementsCount(ids);
    var hit := RowsRefreshed(db, w, ids);
    forall id | id in hit ensures id in Elements(ids) {
      assert db.rows[id].id == id;
    }
    SubsetCount(hit, Elements(ids));
    if Elements(ids) <= hit {
      forall id | id in ids ensures id in db.rows && db.rows[id].OwnedBy(w) {
        assert id in Elements(ids);
      }
    }
    if forall id | id in ids :: id in db.rows && db.rows[id].OwnedBy(w) {
      forall id | id in Elements(ids) ensures id in hit {
        assert db.rows[id].id == id;
      }
    }
  }

  // ----- a lost claim stays lost -----

  predicate Past(db: Db, g: Grant) {
    g.id in db.rows && g.epoch <= db.rows[g.id].attempts
  }

  lemma LostStays(db: Db, w: string, g: Grant, e: Event)
    requires Inv(db) && ValidJitter(e) && Enabled(db, e)
    requires Past(db, g) && !Holds(db, w, g)
    ensures Past(Next(db, e), g) && !Holds(Next(db, e), w, g)
  {
    RowStep(db, e, g.id);
  }

  /** An attempt that is not its worker's at one moment is never its worker's again: a new
      claim of the same task by the same worker is a different attempt. */
  lemma {:induction false} LostForever(l: Local, w: string, g: Grant, ss: seq<LocalStep>)
    requires Inv(l.db) && Takes(l, w, ss)
    requires Past(l.db, g) && !Holds(l.db, w, g)
    ensures Past(Taken(l, w, ss).db, g) && !Holds(Taken(l, w, ss).db, w, g)
  {
    if ss != [] {
      var front := ss[..|ss| - 1];
      LostForever(l, w, g, front);
      TakenInv(l, w, front);
      var before := Taken(l, w, front);
      match ss[|ss| - 1] {
        case Own(step) =>
          var e := EventOf(w, before.wk, step);
          if e.Some? {
            LostStays(before.db, w, g, e.value);
          }
        case Env(e) => LostStays(before.db, w, g, e);
      }
    }
  }

  /** The attempts in a worker's hands lie in the past of the rows. */
  ghost predicate PastOk(db: Db, wk: Worker) {
    (forall n | n in wk.dispatches :: Past(db, wk.dispatches[n].grant)) &&
    (wk.main.Launching? ==> forall i | 0 <= i < |wk.main.batch| :: Past(db, wk.main.batch[i]))
  }

  lemma PastNext(db: Db, g: Grant, e: Event)
    requires Inv(db) && ValidJitter(e) && Enabled(db, e) && Past(db, g)
    ensures Past(Next(db, e), g)
  {
    RowStep(db, e, g.id);
  }

  lemma PastTake(l: Local, w: string, s: LocalStep)
    requires Inv(l.db) && PastOk(l.db, l.wk) && CanTake(l, w, s)
    ensures PastOk(Take(l, w, s).db, Take(l, w, s).wk)
  {
    var after := Take(l, w, s);
    var e := if s.Env? then Some(s.e) else EventOf(w, l.wk, s.step);
    forall g | Past(l.db, g) ensures Past(after.db, g) {
      if e.Some? {
        PastNext(l.db, g, e.value);
      }
    }
    if s.Own? && s.step.Granted? {
      forall i | 0 <= i < |s.step.picked|
        ensures Past(after.db, Grant(s.step.picked[i], l.db.rows[s.step.picked[i]].attempts + 1))
      {
        assert Candidate(l.db.rows, l.wk.cfg.queue, s.step.at, s.step.picked[i]);
        RowStep(l.db, e.value, s.step.picked[i]);
      }
    } else if s.Own? && s.step.Launch? {
      assert Past(after.db, l.wk.main.batch[0]);
      assert forall i | 1 <= i < |l.wk.main.batch| :: Past(after.db, l.wk.main.batch[i]);
    }
  }

  lemma {:induction false} PastRun(l: Local, w: string, ss: seq<LocalStep>)
    requires Inv(l.db) && PastOk(l.db, l.wk) && Takes(l, w, ss)
    ensures PastOk(Taken(l, w, ss).db, Taken(l, w, ss).wk)
  {
    if ss != [] {
      PastRun(l, w, ss[..|ss| - 1]);
      TakenInv(l, w, ss[..|ss| - 1]);
      PastTake(Taken(l, w, ss[..|ss| - 1]), w, ss[|ss| - 1]);
    }
  }

  // ----- the in-flight map -----

  /** Every entry is a dispatch of that task which has not run its remove yet. */
  ghost predicate EntriesOk(wk: Worker) {
    && (forall n | n in wk.dispatches :: n < wk.nextDispatch)
    && (forall id | id in wk.inFlight :: Listed(wk, wk.inFlight[id]) && wk.dispatches[wk.inFlight[id]].grant.id == id)
  }

  function EntryGrant(wk: Worker, id: int): Grant
    requires id in wk.inFlight && wk.inFlight[id] in wk.dispatches
  {
    wk.dispatches[wk.inFlight[id]].grant
  }

  /** The step launches a dispatch of task `id`. */
  predicate LaunchesTask(wk: Worker, s: LocalStep, id: int) {
    s == Own(Launch) && wk.main.Launching? && wk.main.batch != [] && wk.main.batch[0].id == id
  }

  /** Entries come from launches alone. */
  lemma EntryStep(l: Local, w: string, s: LocalStep)
    requires EntriesOk(l.wk) && CanTake(l, w, s)
    ensures EntriesOk(Take(l, w, s).wk)
    ensures forall id | id in Take(l, w, s).wk.inFlight && !LaunchesTask(l.wk, s, id) ::
              id in l.wk.inFlight && Take(l, w, s).wk.inFlight[id] == l.wk.inFlight[id] &&
              EntryGrant(Take(l, w, s).wk, id) == EntryGrant(l.wk, id)
  {
    if s.Own? {
      var after := Move(l.db, w, l.wk, s.step);
      forall id | id in after.inFlight && !LaunchesTask(l.wk, s, id)
        ensures id in l.wk.inFlight && after.inFlight[id] == l.wk.inFlight[id]
        ensures Listed(after, after.inFlight[id]) && after.dispatches[after.inFlight[id]].grant == EntryGrant(l.wk, id)
      {
        assert Listed(l.wk, l.wk.inFlight[id]);
      }
    }
  }

  lemma {:induction false} EntriesRun(l: Local, w: string, ss: seq<LocalStep>)
    requires EntriesOk(l.wk) && Takes(l, w, ss)
    ensures EntriesOk(Taken(l, w, ss).wk)
  {
    if ss != [] {
      EntriesRun(l, w, ss[..|ss| - 1]);
      EntryStep(Taken(l, w, ss[..|ss| - 1]), w, ss[|ss| - 1]);
    }
  }

  // ----- cancelling no owner -----

  ghost predicate NeverLaunches(l: Local, w: string, ss: seq<LocalStep>, id: int)
    requires Takes(l, w, ss)
  {
    ss == [] ||
    (NeverLaunches(l, w, ss[..|ss| - 1], id) &&
     !LaunchesTask(Taken(l, w, ss[..|ss| - 1]).wk, ss[|ss| - 1], id))
  }

  lemma {:induction false} SameEntry(l: Local, w: string, ss: seq<LocalStep>, id: int)
    requires EntriesOk(l.wk) && Takes(l, w, ss) && NeverLaunches(l, w, ss, id)
    requires id in Taken(l, w, ss).wk.inFlight
    ensures EntriesOk(Taken(l, w, ss).wk) && id in l.wk.inFlight
    ensures Taken(l, w, ss).wk.inFlight[id] == l.wk.inFlight[id]
    ensures EntryGrant(Taken(l, w, ss).wk, id) == EntryGrant(l.wk, id)
  {
    EntriesRun(l, w, ss);
    if ss != [] {
      var front := ss[..|ss| - 1];
      EntriesRun(l, w, front);
      EntryStep(Taken(l, w, front), w, ss[|ss| - 1]);
      SameEntry(l, w, front, id);
    }
  }

  /** Soundness of the cancellation. A fresh worker runs `xs`, then the heartbeat loop reads a
      row that is not this worker's, and later, after any steps `ys` of anybody, it is about to
      cancel. If the task was not launched in between, the cancel adds exactly the entry of the
      in-flight map to the cancelled dispatches, and that dispatch does not own its claim, nor
      ever will. */
  lemma CancelsOnlyLostClaims(db: Db, cfg: Config, w: string, xs: seq<LocalStep>, ys: seq<LocalStep>,
                              id: int, rest: seq<int>)
    requires Inv(db) && Takes(Local(db, NewWorker(cfg)), w, xs)
    requires CanTake(Taken(Local(db, NewWorker(cfg)), w, xs), w, Own(BeatGet(true)))
    requires Takes(Take(Taken(Local(db, NewWorker(cfg)), w, xs), w, Own(BeatGet(true))), w, ys)
    requires var get := Take(Taken(Local(db, NewWorker(cfg)), w, xs), w, Own(BeatGet(true)));
             get.wk.beat.Cancelling? && get.wk.beat.id == id && NeverLaunches(get, w, ys, id) &&
             Taken(get, w, ys).wk.beat == Cancelling(id, rest)
    ensures var get := Take(Taken(Local(db, NewWorker(cfg)), w, xs), w, Own(BeatGet(true)));
            var l := Taken(get, w, ys);
            CanTake(l, w, Own(BeatCancel)) && EntriesOk(l.wk) &&
            Take(l, w, Own(BeatCancel)).wk.cancelled ==
              l.wk.cancelled + (if id in l.wk.inFlight then {l.wk.inFlight[id]} else {}) &&
            (id in l.wk.inFlight ==> !Holds(l.db, w, EntryGrant(l.wk, id)) && Past(l.db, EntryGrant(l.wk, id)))
  {
    var start := Local(db, NewWorker(cfg));
    var before := Taken(start, w, xs);
    PastRun(start, w, xs);
    EntriesRun(start, w, xs);
    TakenInv(start, w, xs);
    var get := Take(before, w, Own(BeatGet(true)));
    assert SeenLost(before.db, w, id);
    EntriesRun(get, w, ys);
    if id in Taken(get, w, ys).wk.inFlight {
      SameEntry(get, w, ys, id);
      assert Listed(get.wk, get.wk.inFlight[id]);
      LostForever(get, w, EntryGrant(get.wk, id), ys);
    }
  }

  // ----- exactly when a cancellation hits an owner -----

  ghost predicate BatchFresh(db: Db, w: string, wk: Worker)
    requires EntriesOk(wk)
  {
    wk.main.Launching? ==>
      (forall i, j | 0 <= i < j < |wk.main.batch| :: wk.main.batch[i].id != wk.main.batch[j].id) &&
      (forall i | 0 <= i < |wk.main.batch| && Owns(db, w, wk.main.batch[i].id) ::
         wk.main.batch[i].epoch == db.rows[wk.main.batch[i].id].attempts) &&
      (forall i | 0 <= i < |wk.main.batch| && wk.main.batch[i].id in wk.inFlight ::
         EntryGrant(wk, wk.main.batch[i].id).epoch < wk.main.batch[i].epoch)
  }

  /** An owned task outside the batch being launched is owned through its entry. */
  ghost predicate EpochsOk(db: Db, w: string, wk: Worker) {
    EntriesOk(wk) && PastOk(db, wk) && BatchFresh(db, w, wk) &&
    forall id | id in wk.inFlight && Owns(db, w, id) && !InBatch(wk, id) ::
      EntryGrant(wk, id).epoch == db.rows[id].attempts
  }

  /** The hypothesis: no claim that took effect and whose reply was lost picked a task that is
      still in the in-flight map. */
  predicate ReplyKept(wk: Worker, s: LocalStep) {
    s.Own? && s.step.ClaimError? ==> forall id | id in s.step.picked :: id !in wk.inFlight
  }

  lemma OwnedSame(db: Db, w: string, e: Event, id: int)
    requires Inv(db) && ValidJitter(e) && Enabled(db, e)
    requires e.Claim? && e.worker == w ==> id !in e.picked
    requires Owns(Next(db, e), w, id)
    ensures Owns(db, w, id) && Next(db, e).rows[id].attempts == db.rows[id].attempts
  {
    if id in db.rows {
      RowStep(db, e, id);
    }
  }

  lemma EpochsEnv(l: Local, w: string, e: Event)
    requires Inv(l.db) && EpochsOk(l.db, w, l.wk) && CanTake(l, w, Env(e))
    ensures EpochsOk(Next(l.db, e), w, l.wk)
  {
    PastTake(l, w, Env(e));
    forall id | Owns(Next(l.db, e), w, id)
      ensures Owns(l.db, w, id) && Next(l.db, e).rows[id].attempts == l.db.rows[id].attempts
    {
      OwnedSame(l.db, w, e, id);
    }
  }

  lemma GrantedInBatch(l: Local, w: string, step: Step)
    requires CanTake(l, w, Own(step)) && step.Granted?
    ensures forall id | id in step.picked :: InBatch(Take(l, w, Own(step)).wk, id)
  {
    forall id | id in step.picked ensures InBatch(Take(l, w, Own(step)).wk, id) {
      var i :| 0 <= i < |step.picked| && step.picked[i] == id;
      assert Take(l, w, Own(step)).wk.main.batch[i].id == id;
    }
  }

  lemma EpochsClaim(l: Local, w: string, step: Step)
    requires Inv(l.db) && EpochsOk(l.db, w, l.wk) && CanTake(l, w, Own(step)) && ReplyKept(l.wk, Own(step))
    requires step.Granted? || step.ClaimError?
    ensures EpochsOk(Take(l, w, Own(step)).db, w, Take(l, w, Own(step)).wk)
  {
    var after, e := Take(l, w, Own(step)), EventOf(w, l.wk, step).value;
    PastTake(l, w, Own(step));
    forall i | 0 <= i < |step.picked|
      ensures step.picked[i] in l.db.rows
      ensures after.db.rows[step.picked[i]].attempts == l.db.rows[step.picked[i]].attempts + 1
    {
      assert Candidate(l.db.rows, l.wk.cfg.queue, step.at, step.picked[i]);
      RowStep(l.db, e, step.picked[i]);
    }
    if step.Granted? {
      GrantedInBatch(l, w, step);
    }
    forall id | id in after.wk.inFlight && Owns(after.db, w, id) && !InBatch(after.wk, id)
      ensures EntryGrant(after.wk, id).epoch == after.db.rows[id].attempts
    {
      assert id !in step.picked;
      OwnedSame(l.db, w, e, id);
    }
    forall i | after.wk.main.Launching? && 0 <= i < |after.wk.main.batch| &&
               after.wk.main.batch[i].id in after.wk.inFlight
      ensures EntryGrant(after.wk, after.wk.main.batch[i].id).epoch < after.wk.main.batch[i].epoch
    {
      assert Past(l.db, EntryGrant(l.wk, step.picked[i]));
    }
  }

  lemma EpochsLaunch(l: Local, w: string)
    requires Inv(l.db) && EpochsOk(l.db, w, l.wk) && CanTake(l, w, Own(Launch))
    ensures EpochsOk(l.db, w, Move(l.db, w, l.wk, Launch))
  {
    var after, g := Move(l.db, w, l.wk, Launch), l.wk.main.batch[0];
    PastTake(l, w, Own(Launch));
    EntryStep(l, w, Own(Launch));
    forall i | after.main.Launching? && 0 <= i < |after.main.batch|
      ensures after.main.batch[i] == l.wk.main.batch[i + 1] && after.main.batch[i].id != g.id
    {
    }
    forall id | id != g.id && InBatch(l.wk, id) ensures InBatch(after, id) {
      var i :| 0 <= i < |l.wk.main.batch| && l.wk.main.batch[i].id == id;
      assert after.main.batch[i - 1].id == id;
    }
  }

  lemma EpochsOther(l: Local, w: string, step: Step)
    requires Inv(l.db) && EpochsOk(l.db, w, l.wk) && CanTake(l, w, Own(step))
    requires !step.Granted? && !step.ClaimError? && !step.Launch?
    ensures EpochsOk(Take(l, w, Own(step)).db, w, Take(l, w, Own(step)).wk)
  {
    var after, e := Take(l, w, Own(step)), EventOf(w, l.wk, step);
    PastTake(l, w, Own(step));
    EntryStep(l, w, Own(step));
    forall id | Owns(after.db, w, id)
      ensures Owns(l.db, w, id) && after.db.rows[id].attempts == l.db.rows[id].attempts
    {
      if e.Some? {
        OwnedSame(l.db, w, e.value, id);
      }
    }
    assert forall id :: InBatch(after.wk, id) <==> InBatch(l.wk, id);
  }

  lemma EpochsStep(l: Local, w: string, s: LocalStep)
    requires Inv(l.db) && EpochsOk(l.db, w, l.wk) && CanTake(l, w, s) && ReplyKept(l.wk, s)
    ensures EpochsOk(Take(l, w, s).db, w, Take(l, w, s).wk)
  {
    match s {
      case Env(e) => EpochsEnv(l, w, e);
      case Own(step) =>
        if step.Granted? || step.ClaimError? {
          EpochsClaim(l, w, step);
        } else if step.Launch? {
          EpochsLaunch(l, w);
        } else {
          EpochsOther(l, w, step);
        }
    }
  }

  ghost predicate RepliesKept(l: Local, w: string, ss: seq<LocalStep>)
    requires Takes(l, w, ss)
  {
    ss == [] ||
    (RepliesKept(l, w, ss[..|ss| - 1]) && ReplyKept(Taken(l, w, ss[..|ss| - 1]).wk, ss[|ss| - 1]))
  }

  lemma {:induction false} EpochsRun(l: Local, w: string, ss: seq<LocalStep>)
    requires Inv(l.db) && EpochsOk(l.db, w, l.wk) && Takes(l, w, ss) && RepliesKept(l, w, ss)
    ensures EpochsOk(Taken(l, w, ss).db, w, Taken(l, w, ss).wk)
  {
    if ss != [] {
      EpochsRun(l, w, ss[..|ss| - 1]);
      TakenInv(l, w, ss[..|ss| - 1]);
      EpochsStep(Taken(l, w, ss[..|ss| - 1]), w, ss[|ss| - 1]);
    }
  }

  /** Exactly when a cancellation hits an owner. At every moment of a worker's life, the
      dispatch listed for a task owns its claim if and only if the row is this worker's and
      the task is not in the batch being launched. */
  lemma EntryOwnsIff(db: Db, cfg: Config, w: string, ss: seq<LocalStep>, id: int)
    requires Inv(db) && Takes(Local(db, NewWorker(cfg)), w, ss) && RepliesKept(Local(db, NewWorker(cfg)), w, ss)
    requires id in Taken(Local(db, NewWorker(cfg)), w, ss).wk.inFlight
    ensures var l := Taken(Local(db, NewWorker(cfg)), w, ss);
            EntriesOk(l.wk) &&
            (Holds(l.db, w, EntryGrant(l.wk, id)) <==> Owns(l.db, w, id) && !InBatch(l.wk, id))
  {
    EpochsRun(Local(db, NewWorker(cfg)), w, ss);
    var l := Taken(Local(db, NewWorker(cfg)), w, ss);
    if Owns(l.db, w, id) && InBatch(l.wk, id) {
      var i :| 0 <= i < |l.wk.main.batch| && l.wk.main.batch[i].id == id;
      assert EntryGrant(l.wk, id).epoch < l.wk.main.batch[i].epoch;
    }
  }

  /** So a cancel of the heartbeat loop hits an owner exactly then. */
  lemma CancelHitsOwnerIff(db: Db, cfg: Config, w: string, ss: seq<LocalStep>, id: int, rest: seq<int>)
    requires Inv(db) && Takes(Local(db, NewWorker(cfg)), w, ss) && RepliesKept(Local(db, NewWorker(cfg)), w, ss)
    requires Taken(Local(db, NewWorker(cfg)), w, ss).wk.beat == Cancelling(id, rest)
    ensures var l := Taken(Local(db, NewWorker(cfg)), w, ss);
            EntriesOk(l.wk) && CanTake(l, w, Own(BeatCancel)) &&
            ((exists n | n in Take(l, w, Own(BeatCancel)).wk.cancelled && n !in l.wk.cancelled ::
                n in l.wk.dispatches && Holds(l.db, w, l.wk.dispatches[n].grant)) <==>
             id in l.wk.inFlight && l.wk.inFlight[id] !in l.wk.cancelled && Owns(l.db, w, id) && !InBatch(l.wk, id))
  {
    var l := Taken(Local(db, NewWorker(cfg)), w, ss);
    EpochsRun(Local(db, NewWorker(cfg)), w, ss);
    if id in l.wk.inFlight {
      EntryOwnsIff(db, cfg, w, ss, id);
      assert Listed(l.wk, l.wk.inFlight[id]);
    }
  }

  // ----- a whole pass of the heartbeat loop -----

  /** What one pass did: whether its heartbeat came back short, the rows it read and found
      lost, and the entries it found when it cancelled. */
  datatype Trace = Trace(short: seq<bool>, looks: seq<Look>, hits: seq<Hit>, released: set<nat>)
  datatype Look = Look(id: int, lost: bool)
  datatype Hit = Hit(id: int, entry: Option<nat>)

  function EntryOf(wk: Worker, id: int): Option<nat> {
    if id in wk.inFlight then Some(wk.inFlight[id]) else None
  }

  function TraceStep(l: Local, w: string, s: LocalStep, tr: Trace): Trace
    requires CanTake(l, w, s)
  {
    if s.Env? then tr else
    match s.step
    case BeatSend(sent, replied) =>
      tr.(short := tr.short + [sent && replied && |RowsRefreshed(l.db, w, l.wk.beat.ids)| != |l.wk.beat.ids|])
    case BeatGet(read) =>
      var id := l.wk.beat.left[0];
      tr.(looks := tr.looks + [Look(id, read && id in l.db.rows && l.db.rows[id].claimedBy != Some(w))])
    case BeatCancel => tr.(hits := tr.hits + [Hit(l.wk.beat.id, EntryOf(l.wk, l.wk.beat.id))])
    case Release(_, _) =>
      var id := l.wk.main.left[0];
      tr.(released := tr.released + (if id in l.wk.inFlight then {l.wk.inFlight[id]} else {}))
    case _ => tr
  }

  ghost function TraceOf(l: Local, w: string, ss: seq<LocalStep>): Trace
    requires Takes(l, w, ss)
  {
    if ss == [] then Trace([], [], [], {})
    else TraceStep(Taken(l, w, ss[..|ss| - 1]), w, ss[|ss| - 1], TraceOf(l, w, ss[..|ss| - 1]))
  }

  function LookIds(looks: seq<Look>): seq<int> {
    if looks == [] then [] else LookIds(looks[..|looks| - 1]) + [looks[|looks| - 1].id]
  }

  function LostIds(looks: seq<Look>): seq<int> {
    if looks == [] then [] else
    LostIds(looks[..|looks| - 1]) + if looks[|looks| - 1].lost then [looks[|looks| - 1].id] else []
  }

  function HitIds(hits: seq<Hit>): seq<int> {
    if hits == [] then [] else HitIds(hits[..|hits| - 1]) + [hits[|hits| - 1].id]
  }

  function HitEntries(hits: seq<Hit>): set<nat> {
    if hits == [] then {} else
    var last := hits[|hits| - 1];
    HitEntries(hits[..|hits| - 1]) + if last.entry.Some? then {last.entry.value} else {}
  }

  /** How far a pass over `ids` has come. */
  ghost predicate PassAt(ids: seq<int>, beat: Beat, tr: Trace) {
    match beat
    case Sending(sent) => sent == ids && tr.short == [] && tr.looks == [] && tr.hits == []
    case Checking(left) =>
      tr.short == [true] && LookIds(tr.looks) + left == ids && HitIds(tr.hits) == LostIds(tr.looks)
    case Cancelling(id, rest) =>
      tr.short == [true] && LookIds(tr.looks) + rest == ids && HitIds(tr.hits) + [id] == LostIds(tr.looks)
    case Resting =>
      (tr.short == [false] && tr.looks == [] && tr.hits == []) ||
      (tr.short == [true] && LookIds(tr.looks) == ids && HitIds(tr.hits) == LostIds(tr.looks))
  }

  lemma Snocs(looks: seq<Look>, k: Look, hits: seq<Hit>, h: Hit)
    ensures LookIds(looks + [k]) == LookIds(looks) + [k.id]
    ensures LostIds(looks + [k]) == LostIds(looks) + if k.lost then [k.id] else []
    ensures HitIds(hits + [h]) == HitIds(hits) + [h.id]
    ensures HitEntries(hits + [h]) == HitEntries(hits) + if h.entry.Some? then {h.entry.value} else {}
  {
    assert (looks + [k])[..|looks|] == looks;
    assert (hits + [h])[..|hits|] == hits;
  }

  lemma FirstMoves(front: seq<int>, left: seq<int>)
    requires left != []
    ensures front + left == front + [left[0]] + left[1..]
  {
  }

  lemma PassGet(l: Local, w: string, read: bool, ids: seq<int>, tr: Trace)
    requires CanTake(l, w, Own(BeatGet(read))) && PassAt(ids, l.wk.beat, tr)
    ensures PassAt(ids, Take(l, w, Own(BeatGet(read))).wk.beat, TraceStep(l, w, Own(BeatGet(read)), tr))
  {
    var id := l.wk.beat.left[0];
    FirstMoves(LookIds(tr.looks), l.wk.beat.left);
    Snocs(tr.looks, Look(id, read && SeenLost(l.db, w, id)), tr.hits, Hit(0, None));
  }

  lemma PassCancel(l: Local, w: string, ids: seq<int>, tr: Trace, before: set<nat>)
    requires CanTake(l, w, Own(BeatCancel)) && PassAt(ids, l.wk.beat, tr)
    requires l.wk.cancelled == before + HitEntries(tr.hits) + tr.released
    ensures PassAt(ids, Take(l, w, Own(BeatCancel)).wk.beat, TraceStep(l, w, Own(BeatCancel), tr))
    ensures Take(l, w, Own(BeatCancel)).wk.cancelled ==
            before + HitEntries(TraceStep(l, w, Own(BeatCancel), tr).hits) + tr.released
  {
    Snocs(tr.looks, Look(0, false), tr.hits, Hit(l.wk.beat.id, EntryOf(l.wk, l.wk.beat.id)));
  }

  lemma PassSend(l: Local, w: string, sent: bool, replied: bool, ids: seq<int>, tr: Trace)
    requires CanTake(l, w, Own(BeatSend(sent, replied))) && PassAt(ids, l.wk.beat, tr)
    ensures var s := Own(BeatSend(sent, replied));
            PassAt(ids, Take(l, w, s).wk.beat, TraceStep(l, w, s, tr))
  {
  }

  /** Steps of the other goroutines, but a forced release, leave both alone. */
  lemma PassBeside(l: Local, w: string, s: LocalStep, tr: Trace)
    requires CanTake(l, w, s) && (s.Own? ==> !BeatStep(s.step) && !s.step.Release?)
    ensures TraceStep(l, w, s, tr) == tr
    ensures Take(l, w, s).wk.beat == l.wk.beat && Take(l, w, s).wk.cancelled == l.wk.cancelled
  {
  }

  lemma PassRelease(l: Local, w: string, step: Step, tr: Trace, before: set<nat>)
    requires CanTake(l, w, Own(step)) && step.Release?
    requires l.wk.cancelled == before + HitEntries(tr.hits) + tr.released
    ensures Take(l, w, Own(step)).wk.beat == l.wk.beat
    ensures var after := TraceStep(l, w, Own(step), tr);
            after == tr.(released := after.released) &&
            Take(l, w, Own(step)).wk.cancelled == before + HitEntries(tr.hits) + after.released
  {
  }

  lemma PassStep(l: Local, w: string, s: LocalStep, ids: seq<int>, tr: Trace, before: set<nat>)
    requires CanTake(l, w, s) && !(s.Own? && s.step.BeatStart?) && PassAt(ids, l.wk.beat, tr)
    requires l.wk.cancelled == before + HitEntries(tr.hits) + tr.released
    ensures PassAt(ids, Take(l, w, s).wk.beat, TraceStep(l, w, s, tr))
    ensures Take(l, w, s).wk.cancelled ==
            before + HitEntries(TraceStep(l, w, s, tr).hits) + TraceStep(l, w, s, tr).released
  {
    if s.Env? || (!BeatStep(s.step) && !s.step.Release?) {
      PassBeside(l, w, s, tr);
    } else if s.step.Release? {
      PassRelease(l, w, s.step, tr, before);
    } else if s.step.BeatGet? {
      PassGet(l, w, s.step.read, ids, tr);
    } else if s.step.BeatCancel? {
      PassCancel(l, w, ids, tr, before);
    } else if s.step.BeatSend? {
      PassSend(l, w, s.step.sent, s.step.replied, ids, tr);
    } else {
      PassDone(l, w, ids, tr);
    }
  }

  lemma PassDone(l: Local, w: string, ids: seq<int>, tr: Trace)
    requires CanTake(l, w, Own(BeatDone)) && PassAt(ids, l.wk.beat, tr)
    ensures PassAt(ids, Take(l, w, Own(BeatDone)).wk.beat, tr) && TraceStep(l, w, Own(BeatDone), tr) == tr
    ensures Take(l, w, Own(BeatDone)).wk.cancelled == l.wk.cancelled
  {
  }

  ghost predicate OnePass(ss: seq<LocalStep>) {
    forall s | s in ss :: !(s.Own? && s.step.BeatStart?)
  }

  /** Exactly what a pass cancels, while dispatches finish, tasks are launched and everybody
      else acts beside it. If the heartbeat failed, or its count was full, nothing. Otherwise
      every id sent is read once, and the dispatches cancelled are exactly the entries found,
      at their own cancel, for the ids whose row was read and not owned at its own Get (beside
      those a forced release cancels meanwhile). */
  lemma {:induction false} PassCancels(l: Local, w: string, ids: seq<int>, ss: seq<LocalStep>)
    requires l.wk.beat == Sending(ids) && Takes(l, w, ss) && OnePass(ss)
    ensures PassAt(ids, Taken(l, w, ss).wk.beat, TraceOf(l, w, ss))
    ensures Taken(l, w, ss).wk.cancelled ==
            l.wk.cancelled + HitEntries(TraceOf(l, w, ss).hits) + TraceOf(l, w, ss).released
  {
    if ss != [] {
      var front := ss[..|ss| - 1];
      PassCancels(l, w, ids, front);
      assert ss[|ss| - 1] in ss;
      PassStep(Taken(l, w, front), w, ss[|ss| - 1], ids, TraceOf(l, w, front), l.wk.cancelled);
    }
  }

  // ----- a healthy dispatch cancelled -----

  predicate NoRelease(ss: seq<LocalStep>) {
    forall s | s in ss :: !(s.Own? && s.step.Release?)
  }

  /** Without any forced release, the worker's own heartbeat loop can come to cancel a dispatch
      that is executing task `id` and owns its claim. */
  ghost predicate CanCancelOwner(l: Local, w: string, id: int) {
    exists ss, n: nat, g: Grant :: Takes(l, w, ss) && NoRelease(ss) && g.id == id &&
      n in Taken(l, w, ss).wk.cancelled && Executes(Taken(l, w, ss).wk, n, g) && Holds(Taken(l, w, ss).db, w, g)
  }

  lemma StepCancelsOwner(l: Local, w: string, s: LocalStep, id: int)
    requires CanTake(l, w, s) && !(s.Own? && s.step.Release?) && CanCancelOwner(Take(l, w, s), w, id)
    ensures CanCancelOwner(l, w, id)
  {
    var mid := Take(l, w, s);
    var ss, n: nat, g: Grant :| Takes(mid, w, ss) && NoRelease(ss) && g.id == id &&
      n in Taken(mid, w, ss).wk.cancelled && Executes(Taken(mid, w, ss).wk, n, g) && Holds(Taken(mid, w, ss).db, w, g);
    TakesPrepend(l, w, s, ss);
  }

  lemma LaunchedOwnerCancelled(l: Local, w: string, g: Grant, rest: seq<int>)
    requires l.wk.beat == Cancelling(g.id, rest) && l.wk.main == Launching([g])
    requires l.wk.slots < l.wk.cfg.concurrency && Holds(l.db, w, g)
    ensures CanCancelOwner(l, w, g.id)
  {
    var l1 := Take(l, w, Own(Launch));
    var l2 := Take(l1, w, Own(BeatCancel));
    assert Takes(l2, w, []) && Taken(l2, w, []) == l2;
    assert Executes(l2.wk, l.wk.nextDispatch, g);
    assert CanCancelOwner(l2, w, g.id);
    StepCancelsOwner(l1, w, Own(BeatCancel), g.id);
    StepCancelsOwner(l, w, Own(Launch), g.id);
  }

  /** The reclaim between Get and cancel: the task was released, seen unowned by the Get,
      claimed and launched again by the same worker, and only then cancelled. */
  lemma HealthyDispatchCancelled(l: Local, w: string, id: int, rest: seq<int>)
    requires l.wk.beat == Cancelling(id, rest)
    requires l.wk.main.Asking? && l.wk.main.limit >= 1 && l.wk.slots < l.wk.cfg.concurrency
    requires Candidate(l.db.rows, l.wk.cfg.queue, l.db.now, id) && l.db.rows[id].id == id
    ensures CanCancelOwner(l, w, id)
  {
    var g := Grant(id, l.db.rows[id].attempts + 1);
    var granted := Own(Granted(l.db.now, [id]));
    assert GrantsOf(l.db, [id]) == [g];
    LaunchedOwnerCancelled(Take(l, w, granted), w, g, rest);
    StepCancelsOwner(l, w, granted, id);
  }

  /** The pass that sees the failed task: heartbeat, short count, Get. */
  lemma PassReachesCancel(t: Task, now: int, cfg: Config, w: string)
    requires cfg.concurrency >= 2 && cfg.claimBatch >= 1 && cfg.queue == t.queue
    requires t.id == 1 && t.Due(now) && !t.OwnedBy(w)
    ensures CanCancelOwner(Local(OneTask(t, now), BusyAsking(cfg, Reported).(beat := Sending([1]))), w, 1)
  {
    var l := Local(OneTask(t, now), BusyAsking(cfg, Reported).(beat := Sending([1])));
    var send, get := Own(BeatSend(true, true)), Own(BeatGet(true));
    assert RowsRefreshed(l.db, w, [1]) == {};
    var l1 := Take(l, w, send);
    assert l1.db.rows == map[1 := t];
    assert l1.wk.beat == Checking([1]);
    var l2 := Take(l1, w, get);
    HealthyDispatchCancelled(l2, w, 1, [1][1..]);
    StepCancelsOwner(l1, w, get, 1);
    StepCancelsOwner(l, w, send, 1);
  }

  lemma FailureDuringPass(t: Task, now: int, cfg: Config, w: string)
    requires cfg.concurrency >= 2 && cfg.claimBatch >= 1 && cfg.queue == t.queue
    requires t.id == 1 && t.status == Running && t.OwnedBy(w) && !t.Exhausted() && !t.Overflows()
    ensures CanCancelOwner(Local(OneTask(t, now), BusyAsking(cfg, Executing).(beat := Sending([1]))), w, 1)
  {
    var l := Local(OneTask(t, now), BusyAsking(cfg, Executing).(beat := Sending([1])));
    var fails := Own(Finish(0, Failure(0.0, "")));
    assert Take(l, w, fails) ==
           Local(OneTask(Released(t, now, 0.0, ""), now), BusyAsking(cfg, Reported).(beat := Sending([1])));
    PassReachesCancel(Released(t, now, 0.0, ""), now, cfg, w);
    StepCancelsOwner(l, w, fails, 1);
  }

  /** The worker lists its running task for a heartbeat and asks for more work. */
  lemma PassBegins(db: Db, cfg: Config, w: string)
    requires cfg.concurrency >= 2 && cfg.claimBatch >= 1
    requires CanCancelOwner(Local(db, BusyAsking(cfg, Executing).(beat := Sending([1]))), w, 1)
    ensures CanCancelOwner(Local(db, BusyWaiting(cfg)), w, 1)
  {
    var l := Local(db, BusyWaiting(cfg));
    var start, free, ask := Own(BeatStart([1])), Own(FreeSlot), Own(Ask);
    var l1 := Take(l, w, start);
    var l2 := Take(l1, w, free);
    assert Take(l2, w, ask) == Local(db, BusyAsking(cfg, Executing).(beat := Sending([1])));
    StepCancelsOwner(l2, w, ask, 1);
    StepCancelsOwner(l1, w, free, 1);
    StepCancelsOwner(l, w, start, 1);
  }

  lemma {:induction false} RunCancelsOwner(l: Local, w: string, xs: seq<LocalStep>, id: int)
    requires Takes(l, w, xs) && Quiet(xs) && CanCancelOwner(Taken(l, w, xs), w, id)
    ensures CanCancelOwner(l, w, id)
  {
    if xs != [] {
      assert xs[|xs| - 1] in xs;
      StepCancelsOwner(Taken(l, w, xs[..|xs| - 1]), w, xs[|xs| - 1], id);
      RunCancelsOwner(l, w, xs[..|xs| - 1], id);
    }
  }

  /** From an empty table and a fresh worker with room for two, with any task that may be
      retried, and though no store call fails. */
  lemma OwnerCancelledFromTheStart(t0: int, sub: Submission, cfg: Config, w: string)
    requires Acceptable(sub) && sub.runAt == None && sub.maxAttempts != 1 && sub.queue == cfg.queue
    requires cfg.concurrency >= 2 && cfg.claimBatch >= 1
    ensures CanCancelOwner(Local(Init(t0), NewWorker(cfg)), w, 1)
  {
    var t := Claimed(NewTask(sub, 1, t0), w, t0);
    var ss := LaunchFromTheStart(t0, sub, cfg, w);
    FailureDuringPass(t, t0, cfg, w);
    PassBegins(OneTask(t, t0), cfg, w);
    RunCancelsOwner(Local(Init(t0), NewWorker(cfg)), w, ss, 1);
  }
}
