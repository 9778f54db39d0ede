// What the heartbeat loop is for: heartbeats that take effect at least every 90 seconds of
// database time keep a claim with its worker.
module KeepAlive {
  import opened Wrappers
  import opened Tasks
  import opened Worker
  import opened DoubleExecution
  import opened Shutdown

  /** The step is a heartbeat that takes effect and whose list names the task. */
  predicate BeatsFor(wk: Worker, s: LocalStep, id: int) {
    s.Own? && s.step.BeatSend? && s.step.sent && wk.beat.Sending? && id in wk.beat.ids
  }

  /** A pass that starts while the task is in the in-flight map names it. */
  lemma PassNamesListed(l: Local, w: string, ids: seq<int>, id: int)
    requires CanTake(l, w, Own(BeatStart(ids))) && id in l.wk.inFlight
    ensures Take(l, w, Own(BeatStart(ids))).wk.beat == Sending(ids) && id in ids
  {
    assert id in l.wk.inFlight.Keys;
  }

  /** The instant of the last heartbeat for the task in a run, or `from` if there is none. */
  ghost function LastBeat(l: Local, w: string, ss: seq<LocalStep>, id: int, from: int): int
    requires Takes(l, w, ss)
  {
    if ss == [] then from else
    var before := Taken(l, w, ss[..|ss| - 1]);
    if BeatsFor(before.wk, ss[|ss| - 1], id) then before.db.now
    else LastBeat(l, w, ss[..|ss| - 1], id, from)
  }

  /** At every moment of the run the last heartbeat is at most 90 seconds old. */
  ghost predicate OnTime(l: Local, w: string, ss: seq<LocalStep>, id: int, from: int)
    requires Takes(l, w, ss)
  {
    Taken(l, w, ss).db.now <= LastBeat(l, w, ss, id, from) + HEARTBEAT_TTL &&
    (ss == [] || OnTime(l, w, ss[..|ss| - 1], id, from))
  }

  /** The worker itself gives the task up: a dispatch of it reports, or it is released. */
  predicate GivesUp(wk: Worker, s: LocalStep, id: int) {
    s.Own? &&
    match s.step
    case Finish(n, _) => n in wk.dispatches && wk.dispatches[n].grant.id == id
    case Release(_, _) => wk.main.Releasing? && wk.main.left != [] && wk.main.left[0] == id
    case _ => false
  }

  ghost predicate NeverGivesUp(l: Local, w: string, ss: seq<LocalStep>, id: int)
    requires Takes(l, w, ss)
  {
    ss == [] ||
    (NeverGivesUp(l, w, ss[..|ss| - 1], id) && !GivesUp(Taken(l, w, ss[..|ss| - 1]).wk, ss[|ss| - 1], id))
  }

  /** The claim is held, and its row was refreshed no earlier than `at`. */
  ghost predicate HeldSince(db: Db, w: string, g: Grant, at: int) {
    Holds(db, w, g) && db.rows[g.id].heartbeatAt.Some? && at <= db.rows[g.id].heartbeatAt.value
  }

  lemma HeldStep(l: Local, w: string, g: Grant, s: LocalStep, at: int)
    requires Inv(l.db) && CanTake(l, w, s) && HeldSince(l.db, w, g, at)
    requires l.db.now <= at + HEARTBEAT_TTL && !GivesUp(l.wk, s, g.id)
    ensures HeldSince(Take(l, w, s).db, w, g, if BeatsFor(l.wk, s, g.id) then l.db.now else at)
  {
    var e := if s.Env? then Some(s.e) else EventOf(w, l.wk, s.step);
    if e.Some? {
      RowStep(l.db, e.value, g.id);
    }
  }

  /** Whatever everybody else does, sweepers included, a claim whose heartbeats take effect at
      least every 90 seconds of database time stays with its worker until the worker gives it
      up, and no sweep ever finds it expired. */
  lemma {:induction false} KeptAlive(l: Local, w: string, g: Grant, ss: seq<LocalStep>, from: int)
    requires Inv(l.db) && HeldSince(l.db, w, g, from)
    requires Takes(l, w, ss) && OnTime(l, w, ss, g.id, from) && NeverGivesUp(l, w, ss, g.id)
    ensures HeldSince(Taken(l, w, ss).db, w, g, LastBeat(l, w, ss, g.id, from))
    ensures !Taken(l, w, ss).db.rows[g.id].Expired(Taken(l, w, ss).db.now)
  {
    if ss != [] {
      var front := ss[..|ss| - 1];
      KeptAlive(l, w, g, front, from);
      TakenInv(l, w, front);
      HeldStep(Taken(l, w, front), w, g, ss[|ss| - 1], LastBeat(l, w, front, g.id, from));
    }
  }

  /** The limit is exact: a claim whose last refresh is older is taken away by the next sweep,
      unless the sweep fails as a whole. */
  lemma SilentClaimIsSweptIff(db: Db, w: string, g: Grant)
    requires Inv(db) && Holds(db, w, g) && !Errors(db, Recover)
    ensures !Holds(Next(db, Recover), w, g) <==> db.rows[g.id].heartbeatAt.value + HEARTBEAT_TTL < db.now
  {
    RowStep(db, Recover, g.id);
  }
}
