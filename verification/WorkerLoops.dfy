// The worker's own loops as code: the in-flight set, one pass of the claim loop, one
// heartbeat, and the release at shutdown. Between any two store calls the rest of the fleet
// may execute statements; `env` says which.
module WorkerLoops {
  import opened Wrappers
  import Retry
  import opened Tasks
  import opened Effects
  import opened Worker
  import opened TaskStore
  import opened LostClaim
  import opened Shutdown

  // Bounds of the idle backoff of Run, in microseconds.
  const BACKOFF_FLOOR: int := 50_000
  const BACKOFF_CEILING: int := 2_000_000

  /** past is every value the map has had; no code reads it. */
  class InFlightSet {
    var cancel: map<int, nat>
    ghost var past: seq<map<int, nat>>

    ghost predicate Valid()
      reads this
    {
      past != [] && past[|past| - 1] == cancel
    }

    constructor ()
      ensures Valid() && cancel == map[]
    {
      cancel := map[];
      past := [map[]];
    }

    method Add(id: int, dispatch: nat)
      requires Valid()
      modifies this
      ensures Valid() && cancel == old(cancel)[id := dispatch] && past == old(past) + [cancel]
    {
      cancel := cancel[id := dispatch];
      past := past + [cancel];
    }

    method Remove(id: int)
      requires Valid()
      modifies this
      ensures Valid() && cancel == old(cancel) - {id} && past == old(past) + [cancel]
    {
      cancel := cancel - {id};
      past := past + [cancel];
    }

    /** Every id once, in no particular order. */
    method Ids() returns (ids: seq<int>)
      ensures Enumerates(ids, cancel.Keys)
    {
      ids := [];
      var left := cancel.Keys;
      while exists id :: id in left
        invariant left <= cancel.Keys
        invariant Distinct(ids)
        invariant forall id | id in cancel :: id in left || id in ids
        invariant forall id | id in ids :: id in cancel && id !in left
        decreases left
      {
        var id :| id in left;
        left := left - {id};
        ids := ids + [id];
      }
    }

    method CancelFunc(id: int) returns (dispatch: Option<nat>)
      ensures dispatch == if id in cancel then Some(cancel[id]) else None
    {
      dispatch := if id in cancel then Some(cancel[id]) else None;
    }
  }

  /** What may happen beside a loop of the worker: a statement by anybody, a task entering the
      in-flight map, and the deferred calls of a dispatch that take it out of the map and free
      its slot. */
  datatype Act = Statement(e: Event) | Register(task: int, dispatch: nat) | Unregister(task: int) | FreeSlot

  predicate ClaimBy(e: Event, w: string) {
    e.Claim? && e.worker == w
  }

  /** The statements `es` took the table from `before` to `after`. */
  ghost predicate Ran(before: Db, es: seq<Event>, after: Db) {
    Run(before, es) && Exec(before, es) == after
  }

  /** Without a claim of its own a worker gains no row, and what it keeps it keeps at the same
      attempt. */
  lemma {:induction false} NoClaimNoGain(before: Db, es: seq<Event>, after: Db, w: string, id: int)
    requires Inv(before) && Ran(before, es, after) && forall e | e in es :: !ClaimBy(e, w)
    ensures Owns(after, w, id) ==>
              Owns(before, w, id) && after.rows[id].attempts == before.rows[id].attempts &&
              SameIdentity(before.rows[id], after.rows[id])
  {
    if es != [] {
      var front, e := es[..|es| - 1], es[|es| - 1];
      var mid := Exec(before, front);
      NoClaimNoGain(before, front, mid, w, id);
      InvRun(before, front);
      assert e in es;
      if Owns(after, w, id) {
        OwnedSame(mid, w, e, id);
        RowStep(mid, e, id);
      }
    }
  }

  /** Some run of statements leads from one state of the table to the other. */
  ghost predicate Reaches(a: Db, b: Db) {
    exists es :: Ran(a, es, b)
  }

  lemma ReachesBy(a: Db, es: seq<Event>, b: Db)
    requires Ran(a, es, b)
    ensures Reaches(a, b)
  {
  }

  lemma ReachesSelf(a: Db)
    ensures Reaches(a, a)
  {
    ReachesBy(a, [], a);
  }

  lemma ReachesTrans(a: Db, b: Db, c: Db)
    requires Reaches(a, b) && Reaches(b, c)
    ensures Reaches(a, c)
  {
    var xs :| Ran(a, xs, b);
    var ys :| Ran(b, ys, c);
    RunConcat(a, xs, ys);
    ReachesBy(a, xs + ys, c);
  }

  /** A moment: the table, and every value the in-flight map has had so far. */
  datatype Moment = Moment(db: Db, past: seq<map<int, nat>>)

  ghost predicate Before(a: Moment, b: Moment) {
    Reaches(a.db, b.db) && a.past <= b.past
  }

  /** The table passed through `db` between the two moments. */
  ghost predicate SeenBetween(a: Moment, b: Moment, db: Db) {
    Reaches(a.db, db) && Reaches(db, b.db)
  }

  /** The in-flight map was `m` at `a`, at `b`, or in between. */
  ghost predicate MapBetween(a: Moment, b: Moment, m: map<int, nat>) {
    exists k: nat :: |a.past| - 1 <= k < |b.past| && b.past[k] == m
  }

  /** One round of the loop after a short count: whether the Get succeeded, the table it read,
      and the in-flight map at the lookup of the cancel function. */
  datatype Check = Check(read: bool, look: Db, entries: map<int, nat>)

  /** The dispatch the round cancels, if any. */
  ghost function HitOf(c: Check, id: int, w: string): set<nat> {
    if c.read && id in c.look.rows && c.look.rows[id].claimedBy != Some(w) && id in c.entries then {c.entries[id]}
    else {}
  }

  /** The dispatches found for the tasks whose row was not owned when read. */
  ghost function Hits(ids: seq<int>, checks: seq<Check>, w: string): set<nat>
    requires |checks| <= |ids|
  {
    if checks == [] then {} else
    Hits(ids, checks[..|checks| - 1], w) + HitOf(checks[|checks| - 1], ids[|checks| - 1], w)
  }

  lemma HitsSnoc(ids: seq<int>, checks: seq<Check>, c: Check, w: string)
    requires |checks| < |ids|
    ensures Hits(ids, checks + [c], w) == Hits(ids, checks, w) + HitOf(c, ids[|checks|], w)
  {
    assert (checks + [c])[..|checks|] == checks;
  }

  /** The read and the lookup of a round took place between the two moments. */
  ghost predicate CheckedBetween(a: Moment, b: Moment, c: Check) {
    SeenBetween(a, b, c.look) && MapBetween(a, b, c.entries)
  }

  ghost predicate AllCheckedBetween(a: Moment, b: Moment, checks: seq<Check>) {
    forall k | 0 <= k < |checks| :: CheckedBetween(a, b, checks[k])
  }

  /** What was checked in a span of time was checked in any longer one. */
  lemma CheckedWithin(a: Moment, b: Moment, c: Moment, d: Moment, check: Check)
    requires Before(a, b) && Before(c, d) && CheckedBetween(b, c, check)
    ensures CheckedBetween(a, d, check)
  {
    ReachesTrans(a.db, b.db, check.look);
    ReachesTrans(check.look, c.db, d.db);
    var k: nat :| |b.past| - 1 <= k < |c.past| && c.past[k] == check.entries;
    assert d.past[k] == c.past[k];
  }

  lemma AllCheckedWithin(a: Moment, b: Moment, c: Moment, d: Moment, checks: seq<Check>)
    requires Before(a, b) && Before(c, d) && AllCheckedBetween(b, c, checks)
    ensures AllCheckedBetween(a, d, checks)
  {
    forall k | 0 <= k < |checks| ensures CheckedBetween(a, d, checks[k]) {
      CheckedWithin(a, b, c, d, checks[k]);
    }
  }

  lemma BeforeSelf(a: Moment)
    ensures Before(a, a)
  {
    ReachesSelf(a.db);
  }

  lemma BeforeTrans(a: Moment, b: Moment, c: Moment)
    requires Before(a, b) && Before(b, c)
    ensures Before(a, c)
  {
    ReachesTrans(a.db, b.db, c.db);
  }

  /** Which Gets succeeded. */
  predicate ReadAs(checks: seq<Check>, gets: nat -> bool) {
    forall k | 0 <= k < |checks| :: checks[k].read == gets(k)
  }

  lemma ReadAsSnoc(checks: seq<Check>, c: Check, gets: nat -> bool)
    requires ReadAs(checks, gets) && c.read == gets(|checks|)
    ensures ReadAs(checks + [c], gets)
  {
  }

  /** A round made after everything so far joins the others. */
  lemma CheckJoins(from: Moment, a: Moment, b: Moment, checks: seq<Check>, c: Check)
    requires Before(from, a) && Before(a, b) && AllCheckedBetween(from, a, checks) && CheckedBetween(a, b, c)
    ensures Before(from, b) && AllCheckedBetween(from, b, checks + [c])
  {
    BeforeSelf(from);
    BeforeSelf(b);
    BeforeTrans(from, a, b);
    AllCheckedWithin(from, from, a, b, checks);
    CheckedWithin(from, a, b, b, c);
  }

  datatype ClaimReply = Replied | ReplyLost | NotDone

  /** Between the two moments the map once came to list dispatch `d` for task `id`. */
  ghost predicate Registered(a: Moment, b: Moment, id: int, d: nat) {
    exists k :: |a.past| <= k < |b.past| && id in b.past[k] && b.past[k][id] == d
  }

  lemma RegisteredGrows(a: Moment, b: Moment, c: Moment, id: int, d: nat)
    requires Before(b, c) && Registered(a, b, id, d)
    ensures Registered(a, c, id, d)
  {
    var k :| |a.past| <= k < |b.past| && id in b.past[k] && b.past[k][id] == d;
    assert c.past[k] == b.past[k];
  }

  lemma RegisteredEarlier(a: Moment, b: Moment, c: Moment, id: int, d: nat)
    requires a.past <= b.past && Registered(b, c, id, d)
    ensures Registered(a, c, id, d)
  {
  }

  /** The last statement of a history leads from the table before it to the table after it. */
  lemma OneStatement(before: Db, e: Event, after: Db, start: int, history: seq<Event>)
    requires history != [] && history[|history| - 1] == e
    requires Run(Init(start), history) && Exec(Init(start), history[..|history| - 1]) == before
    requires Exec(Init(start), history) == after
    ensures Reaches(before, after)
  {
    RunPrefix(before, [], e);
    ReachesBy(before, [] + [e], after);
  }

  /** Entries have only been removed. */
  ghost predicate Shrunk(before: map<int, nat>, after: map<int, nat>) {
    forall i | i in after :: i in before && after[i] == before[i]
  }

  /** A heartbeat: every listed row the worker owns carries the present instant, no other row has
      changed. */
  ghost predicate Refreshed(before: Db, after: Db, w: string, ids: seq<int>) {
    after.now == before.now && after.rows.Keys == before.rows.Keys && forall i | i in before.rows ::
      after.rows[i] == if i in ids && before.rows[i].claimedBy == Some(w)
                       then before.rows[i].(heartbeatAt := Some(before.now)) else before.rows[i]
  }

  /** What the others can change: the table, the in-flight map, the slots and the wait group. */
  datatype Scene = Scene(db: Db, cancel: map<int, nat>, slots: nat, waiting: nat)

  function AfterAct(s: Scene, act: Act, claiming: bool, w: string): Scene {
    match act
    case Statement(e) =>
      if ValidJitter(e) && Enabled(s.db, e) && (claiming || !ClaimBy(e, w)) then s.(db := Next(s.db, e)) else s
    case Register(task, dispatch) => if claiming then s.(cancel := s.cancel[task := dispatch]) else s
    case Unregister(task) => s.(cancel := s.cancel - {task})
    case FreeSlot => if s.slots > 0 && s.waiting > 0 then s.(slots := s.slots - 1, waiting := s.waiting - 1) else s
  }

  function AfterActs(s: Scene, acts: seq<Act>, claiming: bool, w: string): Scene {
    if acts == [] then s
    else AfterAct(AfterActs(s, acts[..|acts| - 1], claiming, w), acts[|acts| - 1], claiming, w)
  }

  lemma AfterActsSnoc(s: Scene, acts: seq<Act>, k: nat, claiming: bool, w: string)
    requires k < |acts|
    ensures AfterActs(s, acts[..k + 1], claiming, w) ==
            AfterAct(AfterActs(s, acts[..k], claiming, w), acts[k], claiming, w)
  {
    assert acts[..k + 1][..k] == acts[..k];
  }

  class Process {
    const id: string
    const cfg: Config
    const store: Store
    const inFlight: InFlightSet
    var slots: nat
    var waiting: nat
    var nextDispatch: nat
    var cancelled: set<nat>
    var backoff: int

    constructor (id: string, cfg: Config, store: Store)
      requires cfg.Valid() && store.Valid()
      ensures this.id == id && this.cfg == cfg && this.store == store && fresh(inFlight) && inFlight.Valid()
      ensures slots == 0 && waiting == 0 && cancelled == {} && inFlight.cancel == map[]
    {
      this.id, this.cfg, this.store := id, cfg, store;
      inFlight := new InFlightSet();
      slots, waiting, nextDispatch, cancelled, backoff := 0, 0, 0, {}, BACKOFF_FLOOR;
    }

    ghost function Now(): Moment
      reads store, inFlight
    {
      Moment(store.Contents(), inFlight.past)
    }

    /** The turn of everybody else, this worker's other goroutines included: whatever of `acts`
        is possible happens. Tasks enter the in-flight map, and rows are claimed for this
        worker, only while the claim loop is one of the others. */
    method Interfere(acts: seq<Act>, claiming: bool) returns (ghost done: seq<Event>, ghost freed: nat)
      requires store.Valid() && inFlight.Valid()
      modifies this`slots, this`waiting, store, inFlight
      ensures store.Valid()
      ensures Ran(old(store.Contents()), done, store.Contents()) && Before(old(Now()), Now())
      ensures !claiming ==> forall e | e in done :: !ClaimBy(e, id)
      ensures inFlight.Valid()
      ensures !claiming ==> Shrunk(old(inFlight.cancel), inFlight.cancel)
      ensures slots == old(slots) - freed && waiting == old(waiting) - freed
      ensures Here() == AfterActs(old(Here()), acts, claiming, id)
    {
      ghost var start := Here();
      done, freed := [], 0;
      var k := 0;
      while k < |acts|
        invariant 0 <= k <= |acts|
        invariant store.Valid()
        invariant Ran(old(store.Contents()), done, store.Contents())
        invariant !claiming ==> forall e | e in done :: !ClaimBy(e, id)
        invariant inFlight.Valid() && old(inFlight.past) <= inFlight.past
        invariant !claiming ==> Shrunk(old(inFlight.cancel), inFlight.cancel)
        invariant slots == old(slots) - freed && waiting == old(waiting) - freed
        invariant Here() == AfterActs(start, acts[..k], claiming, id)
      {
        AfterActsSnoc(start, acts, k, claiming, id);
        match acts[k] {
          case Statement(e) =>
            if ValidJitter(e) && Enabled(store.Contents(), e) && (claiming || !ClaimBy(e, id)) {
              RunPrefix(old(store.Contents()), done, e);
              store.Apply(e);
              done := done + [e];
            }
          case Register(task, dispatch) =>
            if claiming {
              inFlight.Add(task, dispatch);
            }
          case Unregister(task) =>
            inFlight.Remove(task);
          case FreeSlot =>
            if slots > 0 && waiting > 0 {
              slots, waiting, freed := slots - 1, waiting - 1, freed + 1;
            }
        }
        k := k + 1;
      }
      assert acts[..k] == acts;
      ReachesBy(old(store.Contents()), done, store.Contents());
    }

    ghost function Here(): Scene
      reads this, store, inFlight
    {
      Scene(store.Contents(), inFlight.cancel, slots, waiting)
    }

    // ----- the claim loop -----

    /** The body of the loop over claimed tasks, dispatches finishing meanwhile: none of the
        sends can block, since the batch fits the free slots. */
    method LaunchBatch(tasks: seq<Task>, env: nat -> seq<Act>) returns (ghost freed: nat)
      requires store.Valid() && inFlight.Valid()
      requires slots + |tasks| <= cfg.concurrency
      modifies this`slots, this`waiting, this`nextDispatch, store, inFlight
      ensures store.Valid() && inFlight.Valid() && Before(old(Now()), Now())
      ensures slots == old(slots) + |tasks| - freed && waiting == old(waiting) + |tasks| - freed
      ensures nextDispatch == old(nextDispatch) + |tasks|
      ensures forall i :: Owns(store.Contents(), id, i) ==> old(Owns(store.Contents(), id, i))
      ensures forall j | 0 <= j < |tasks| ::
                Registered(old(Now()), Now(), tasks[j].id, old(nextDispatch) + j)
      ensures forall i | i in inFlight.cancel ::
                (i in old(inFlight.cancel) && inFlight.cancel[i] == old(inFlight.cancel[i])) ||
                exists j :: 0 <= j < |tasks| && tasks[j].id == i && inFlight.cancel[i] == old(nextDispatch) + j
    {
      ghost var from := Now();
      BeforeSelf(from);
      freed := 0;
      var j := 0;
      while j < |tasks|
        invariant 0 <= j <= |tasks| && store.Valid() && inFlight.Valid() && Before(from, Now())
        invariant slots == old(slots) + j - freed && waiting == old(waiting) + j - freed
        invariant nextDispatch == old(nextDispatch) + j
        invariant forall i :: Owns(store.Contents(), id, i) ==> old(Owns(store.Contents(), id, i))
        invariant forall m | 0 <= m < j :: Registered(from, Now(), tasks[m].id, old(nextDispatch) + m)
        invariant forall i | i in inFlight.cancel ::
                    (i in old(inFlight.cancel) && inFlight.cancel[i] == old(inFlight.cancel[i])) ||
                    exists m :: 0 <= m < j && tasks[m].id == i && inFlight.cancel[i] == old(nextDispatch) + m
      {
        ghost var before := Now();
        ghost var more := LaunchOne(tasks[j].id, env(j));
        freed := freed + more;
        BeforeTrans(from, before, Now());
        forall m | 0 <= m < j ensures Registered(from, Now(), tasks[m].id, old(nextDispatch) + m) {
          RegisteredGrows(from, before, Now(), tasks[m].id, old(nextDispatch) + m);
        }
        j := j + 1;
      }
    }

    method LaunchOne(task: int, acts: seq<Act>) returns (ghost freed: nat)
      requires store.Valid() && inFlight.Valid() && slots < cfg.concurrency
      modifies this`slots, this`waiting, this`nextDispatch, store, inFlight
      ensures store.Valid() && inFlight.Valid() && Before(old(Now()), Now())
      ensures slots == old(slots) + 1 - freed && waiting == old(waiting) + 1 - freed
      ensures nextDispatch == old(nextDispatch) + 1
      ensures forall i :: Owns(store.Contents(), id, i) ==> old(Owns(store.Contents(), id, i))
      ensures forall from | Before(from, old(Now())) :: Registered(from, Now(), task, old(nextDispatch))
      ensures Shrunk(old(inFlight.cancel)[task := old(nextDispatch)], inFlight.cancel)
    {
      ghost var before := Now();
      store.Invariant();
      slots, waiting := slots + 1, waiting + 1;
      inFlight.Add(task, nextDispatch);
      nextDispatch := nextDispatch + 1;
      ghost var added := Now();
      assert added.past[|before.past|] == inFlight.cancel;
      ghost var done;
      done, freed := Interfere(acts, false);
      forall i | Owns(store.Contents(), id, i) ensures Owns(before.db, id, i) {
        NoClaimNoGain(before.db, done, store.Contents(), id, i);
      }
      assert inFlight.past[|before.past|] == added.past[|before.past|];
    }

    /** One pass of Run's loop once a slot is free, while dispatches finish and everybody else
        acts: claim at most what fits at the call, launch all of it, and adapt the idle delay.
        `seen` is the table the claim found and `free` the free slots then. A claim whose reply
        is lost takes rows and launches nothing. */
    method ClaimPass(env: nat -> seq<Act>, reply: ClaimReply)
      returns (launched: seq<Task>, ghost seen: Db, ghost free: nat, ghost picked: seq<int>, ghost freed: nat)
      requires store.Valid() && inFlight.Valid() && cfg.Valid() && slots < cfg.concurrency
      requires BACKOFF_FLOOR <= backoff <= BACKOFF_CEILING
      modifies this, inFlight, store
      ensures store.Valid() && inFlight.Valid() && SeenBetween(old(Now()), Now(), seen)
      ensures 1 <= free && free + slots <= cfg.concurrency + |launched| && slots <= cfg.concurrency
      ensures slots == old(slots) + |launched| - freed && waiting == old(waiting) + |launched| - freed
      ensures if reply == NotDone then picked == []
              else TakesBest(seen.rows, cfg.queue, seen.now, if cfg.claimBatch <= free then cfg.claimBatch else free,
                             {}, picked)
      ensures Ids(launched) == if reply == Replied then picked else []
      ensures nextDispatch == old(nextDispatch) + |launched| && cancelled == old(cancelled)
      ensures forall j | 0 <= j < |launched| ::
                Registered(old(Now()), Now(), launched[j].id, old(nextDispatch) + j)
      ensures forall i :: Owns(store.Contents(), id, i) ==> old(Owns(store.Contents(), id, i)) || i in picked
      ensures backoff == if reply != Replied then old(backoff)
                         else if launched != [] then 50_000
                         else if old(backoff) * 2 <= 2_000_000 then old(backoff) * 2 else 2_000_000
    {
      ghost var from := Now();
      store.Invariant();
      ghost var done;
      done, freed := Interfere(env(0), false);
      seen := store.Contents();
      ghost var found := Now();
      ReachesSelf(seen);
      launched, picked := [], [];
      var limit := AvailableBatch(cfg, slots);
      free := cfg.concurrency - slots;
      forall i | Owns(seen, id, i) ensures Owns(from.db, id, i) {
        NoClaimNoGain(from.db, done, seen, id, i);
      }
      if reply == NotDone {
        return;
      }
      var tasks := ClaimRows(limit);
      picked := Ids(tasks);
      if reply == ReplyLost {
        return;
      }
      launched := tasks;
      if launched == [] {
        backoff := Retry.Min(backoff * 2, BACKOFF_CEILING);
        return;
      }
      backoff := BACKOFF_FLOOR;
      ghost var claimed := Now();
      ghost var more := LaunchBatch(launched, (k: nat) => env(k + 1));
      freed := freed + more;
      ReachesTrans(seen, claimed.db, store.Contents());
      forall j | 0 <= j < |launched| ensures Registered(from, Now(), launched[j].id, old(nextDispatch) + j) {
        RegisteredEarlier(from, claimed, Now(), launched[j].id, old(nextDispatch) + j);
      }
    }

    /** The claim of a pass, and the rows this worker owns after it. */
    method ClaimRows(limit: nat) returns (tasks: seq<Task>)
      requires store.Valid()
      modifies store
      ensures store.Valid() && Reaches(old(store.Contents()), store.Contents()) && |tasks| <= limit
      ensures TakesBest(old(store.rows), cfg.queue, old(store.now), limit, {}, Ids(tasks))
      ensures forall i :: Owns(store.Contents(), id, i) <==> old(Owns(store.Contents(), id, i)) || i in Ids(tasks)
    {
      ghost var before := store.Contents();
      store.Invariant();
      tasks := store.Claim(cfg.queue, id, limit);
      ghost var e := Event.Claim(id, cfg.queue, limit, before.now, Ids(tasks));
      OneStatement(before, e, store.Contents(), store.start, store.history);
      forall i | i in before.rows
        ensures Owns(store.Contents(), id, i) <==> Owns(before, id, i) || i in Ids(tasks)
      {
        RowStep(before, e, i);
      }
    }

    // ----- the heartbeat -----

    /** One round of the loop after a short count: read the row and, if it is not ours any
        more, look the task up again and cancel the dispatch found. */
    method CheckOne(i: int, read: bool, before: seq<Act>, between: seq<Act>) returns (ghost check: Check)
      requires store.Valid() && inFlight.Valid()
      modifies this`cancelled, this`slots, this`waiting, store, inFlight
      ensures store.Valid() && inFlight.Valid()
      ensures Before(old(Now()), Now()) && CheckedBetween(old(Now()), Now(), check)
      ensures check.read == read && cancelled == old(cancelled) + HitOf(check, i, id)
    {
      ghost var from := Now();
      ghost var done, freed := Interfere(before, true);
      ghost var looked := Now();
      check := Check(read, store.Contents(), inFlight.cancel);
      ReachesSelf(check.look);
      assert looked.past[|looked.past| - 1] == check.entries;
      if read {
        var t := store.Get(i);
        if t.Some? && !t.value.OwnedBy(id) {
          done, freed := Interfere(between, true);
          BeforeTrans(from, looked, Now());
          check := check.(entries := inFlight.cancel);
          assert inFlight.past[|inFlight.past| - 1] == check.entries;
          var dispatch := inFlight.CancelFunc(i);
          if dispatch.Some? {
            cancelled := cancelled + {dispatch.value};
          }
        }
      }
    }

    /** One round of the loop over `ids`, after the rounds `checks` since the moment `from`. */
    method CheckNext(ids: seq<int>, k: nat, ghost from: Moment, ghost checks: seq<Check>,
                     gets: nat -> bool, before: seq<Act>, between: seq<Act>) returns (ghost check: Check)
      requires store.Valid() && inFlight.Valid() && |checks| == k < |ids| && ReadAs(checks, gets)
      requires Before(from, Now()) && AllCheckedBetween(from, Now(), checks)
      modifies this`cancelled, this`slots, this`waiting, store, inFlight
      ensures store.Valid() && inFlight.Valid() && Before(from, Now())
      ensures ReadAs(checks + [check], gets) && AllCheckedBetween(from, Now(), checks + [check])
      ensures cancelled == old(cancelled) + HitOf(check, ids[k], id)
      ensures Hits(ids, checks + [check], id) == Hits(ids, checks, id) + HitOf(check, ids[k], id)
    {
      ghost var now := Now();
      check := CheckOne(ids[k], gets(k), before, between);
      ReadAsSnoc(checks, check, gets);
      CheckJoins(from, now, Now(), checks, check);
      HitsSnoc(ids, checks, check, id);
    }

    /** The loop after a short count: every id once, in order. */
    method CheckAll(ids: seq<int>, env: nat -> seq<Act>, gets: nat -> bool) returns (ghost checks: seq<Check>)
      requires store.Valid() && inFlight.Valid()
      modifies this`cancelled, this`slots, this`waiting, store, inFlight
      ensures store.Valid() && inFlight.Valid() && Before(old(Now()), Now())
      ensures |checks| == |ids| && ReadAs(checks, gets)
      ensures AllCheckedBetween(old(Now()), Now(), checks)
      ensures cancelled == old(cancelled) + Hits(ids, checks, id)
    {
      ghost var from := Now();
      BeforeSelf(from);
      checks := [];
      var k := 0;
      while k < |ids|
        invariant 0 <= k <= |ids| && store.Valid() && inFlight.Valid() && Before(from, Now())
        invariant |checks| == k && ReadAs(checks, gets)
        invariant AllCheckedBetween(from, Now(), checks)
        invariant cancelled == old(cancelled) + Hits(ids, checks, id)
      {
        ghost var check := CheckNext(ids, k, from, checks, gets, env(2 * k), env(2 * k + 1));
        checks := checks + [check];
        k := k + 1;
      }
    }

    /** One heartbeat: the count is full exactly when every row is still owned. */
    method SendBeat(ids: seq<int>) returns (full: bool)
      requires store.Valid() && Distinct(ids)
      modifies store
      ensures store.Valid() && Reaches(old(store.Contents()), store.Contents())
      ensures full <==> forall i | i in ids :: old(Owns(store.Contents(), id, i))
      ensures Refreshed(old(store.Contents()), store.Contents(), id, ids)
    {
      ghost var sent := store.Contents();
      store.Invariant();
      var refreshed := store.Heartbeat(ids, id);
      OneStatement(sent, Event.Heartbeat(id, ids), store.Contents(), store.start, store.history);
      FullCountIff(sent, id, ids);
      assert refreshed == |RowsRefreshed(sent, id, ids)|;
      full := refreshed == |ids|;
    }

    /** heartbeatOnce, while dispatches finish, the claim loop launches and everybody else acts:
        nothing is cancelled when the heartbeat fails or finds every listed row still owned;
        otherwise exactly the entries found, at their own lookup, for the tasks read and not
        owned at their own Get. */
    method HeartbeatOnce(env: nat -> seq<Act>, sends: bool, replies: bool, gets: nat -> bool)
      returns (ghost sent: Db, ghost beaten: Db, ids: seq<int>, ghost checks: seq<Check>)
      requires store.Valid() && inFlight.Valid()
      modifies this`cancelled, this`slots, this`waiting, store, inFlight
      ensures store.Valid() && inFlight.Valid() && Before(old(Now()), Now())
      ensures Enumerates(ids, old(inFlight.cancel).Keys)
      ensures Inv(sent) && SeenBetween(old(Now()), Now(), sent)
      ensures sends && ids != [] ==> SeenBetween(old(Now()), Now(), beaten) && Refreshed(sent, beaten, id, ids)
      ensures |checks| <= |ids| && cancelled == old(cancelled) + Hits(ids, checks, id)
      ensures if !sends || !replies || forall i | i in ids :: Owns(sent, id, i) then checks == []
              else |checks| == |ids| && ReadAs(checks, gets)
      ensures AllCheckedBetween(old(Now()), Now(), checks)
    {
      ghost var from := Now();
      BeforeSelf(from);
      checks := [];
      store.Invariant();
      sent := store.Contents();
      beaten := sent;
      ids := inFlight.Ids();
      if |ids| == 0 {
        return;
      }
      ghost var done, freed := Interfere(env(0), true);
      if !sends {
        return;
      }
      sent := store.Contents();
      ghost var before := Now();
      ReachesSelf(sent);
      store.Invariant();
      var full := SendBeat(ids);
      ghost var beat := Now();
      beaten := beat.db;
      BeforeTrans(from, before, beat);
      ReachesSelf(beaten);
      if !replies || full {
        return;
      }
      checks := CheckAll(ids, (k: nat) => env(k + 1), gets);
      ReachesTrans(sent, beat.db, store.Contents());
      BeforeSelf(Now());
      BeforeTrans(from, beat, Now());
      AllCheckedWithin(from, beat, Now(), Now(), checks);
    }

    // ----- shutdown -----

    /** Cancel one dispatch and fail its task back, others acting in between. */
    method ReleaseOne(i: int, acts: seq<Act>, written: bool, jitter: real)
      returns (ghost done: seq<Event>, ghost at: Db)
      requires store.Valid() && inFlight.Valid() && 0.0 <= jitter < 1.0
      modifies this`cancelled, this`slots, this`waiting, store, inFlight
      ensures store.Valid() && inFlight.Valid() && Ran(old(store.Contents()), done, at)
      ensures if written then ReleasedAt(at, store.Contents(), id, i, jitter) else store.Contents() == at
      ensures Owns(store.Contents(), id, i) ==> !written || Unbounded(store.rows[i])
      ensures forall x | Owns(store.Contents(), id, x) :: Kept(old(store.Contents()), store.Contents(), id, x)
      ensures Shrunk(old(inFlight.cancel), inFlight.cancel)
      ensures cancelled == old(cancelled) + old(if i in inFlight.cancel then {inFlight.cancel[i]} else {})
    {
      ghost var db0 := store.Contents();
      store.Invariant();
      var dispatch := inFlight.CancelFunc(i);
      if dispatch.Some? {
        cancelled := cancelled + {dispatch.value};
      }
      ghost var freed;
      done, freed := Interfere(acts, false);
      at := store.Contents();
      forall x | Owns(at, id, x) ensures Kept(db0, at, id, x) {
        NoClaimNoGain(db0, done, at, id, x);
      }
      if !written {
        return;
      }
      store.Invariant();
      var outcome := store.Fail(i, id, SHUTDOWN_MESSAGE, jitter);
      ReleaseKeeps(at, store.Contents(), id, i, jitter);
    }

    /** releaseRemaining: afterwards no task that was in flight is claimed by this worker, unless
        its store call failed or its backoff cannot be computed; none has succeeded but by one of
        the statements `others` of somebody else; every dispatch still listed has been asked to
        stop, and no other; and no row was claimed for this worker meanwhile. */
    method ReleaseRemaining(env: nat -> seq<Act>, writes: nat -> bool, jitter: real)
      returns (ghost others: seq<Event>)
      requires store.Valid() && inFlight.Valid() && 0.0 <= jitter < 1.0
      modifies this`cancelled, this`slots, this`waiting, store, inFlight
      ensures store.Valid() && inFlight.Valid()
      ensures (forall k :: writes(k)) ==>
                forall i | i in old(inFlight.cancel) && Owns(store.Contents(), id, i) :: Unbounded(store.rows[i])
      ensures forall i | Owns(store.Contents(), id, i) :: old(Owns(store.Contents(), id, i))
      ensures NoneSucceeds(old(store.rows), others, store.rows)
      ensures forall i | i in inFlight.cancel :: inFlight.cancel[i] in cancelled
      ensures old(cancelled) <= cancelled
      ensures forall d | d in cancelled ::
                d in old(cancelled) || exists i :: i in old(inFlight.cancel) && old(inFlight.cancel)[i] == d
    {
      ghost var from := Progress();
      var ids := inFlight.Ids();
      others := [];
      var k := 0;
      while k < |ids|
        invariant 0 <= k <= |ids| && store.Valid() && inFlight.Valid()
        invariant GivenUp(from, Progress(), ids[..k], writes, others, id)
      {
        ghost var before := Progress();
        store.Invariant();
        ghost var done, at := ReleaseOne(ids[k], env(k), writes(k), jitter);
        GivenUpMore(from, before, Progress(), ids, k, writes, others, done, at, id, jitter);
        others := others + done;
        k := k + 1;
      }
      assert ids[..k] == ids;
      forall i | i in inFlight.cancel ensures inFlight.cancel[i] in cancelled {
        assert i in ids;
      }
    }

    ghost function Progress(): Work
      reads this, store, inFlight
    {
      Work(store.Contents(), inFlight.cancel, cancelled)
    }
  }

  /** What the release works on. */
  datatype Work = Work(db: Db, cancel: map<int, nat>, cancelled: set<nat>)

  /** How far the release has come after the tasks `gone`. */
  ghost predicate GivenUp(from: Work, now: Work, gone: seq<int>, writes: nat -> bool, others: seq<Event>, w: string) {
    && (forall j | 0 <= j < |gone| && Owns(now.db, w, gone[j]) :: !writes(j) || Unbounded(now.db.rows[gone[j]]))
    && (forall x | Owns(now.db, w, x) :: Kept(from.db, now.db, w, x))
    && NoneSucceeds(from.db.rows, others, now.db.rows)
    && Shrunk(from.cancel, now.cancel)
    && (forall i | i in gone && i in now.cancel :: now.cancel[i] in now.cancelled)
    && from.cancelled <= now.cancelled
    && (forall d | d in now.cancelled :: d in from.cancelled || exists i :: i in from.cancel && from.cancel[i] == d)
  }

  lemma GivenUpMore(from: Work, before: Work, now: Work, ids: seq<int>, k: nat, writes: nat -> bool,
                     others: seq<Event>, done: seq<Event>, at: Db, w: string, jitter: real)
    requires k < |ids| && Inv(before.db) && GivenUp(from, before, ids[..k], writes, others, w)
    requires Ran(before.db, done, at)
    requires if writes(k) then ReleasedAt(at, now.db, w, ids[k], jitter) else now.db == at
    requires Owns(now.db, w, ids[k]) ==> !writes(k) || Unbounded(now.db.rows[ids[k]])
    requires forall x | Owns(now.db, w, x) :: Kept(before.db, now.db, w, x)
    requires Shrunk(before.cancel, now.cancel)
    requires now.cancelled == before.cancelled + if ids[k] in before.cancel then {before.cancel[ids[k]]} else {}
    ensures GivenUp(from, now, ids[..k + 1], writes, others + done, w)
  {
    assert ids[..k + 1] == ids[..k] + [ids[k]];
    NoneSucceedsAdd(from.db.rows, others, before.db, done, at, now.db);
  }

  /** The release writes one row, if the worker still owns it and its backoff can be computed. */
  predicate ReleasedAt(before: Db, after: Db, w: string, id: int, jitter: real) {
    after.now == before.now && after.rows.Keys == before.rows.Keys && forall i | i in before.rows ::
      if i == id && before.rows[i].claimedBy == Some(w) && !Unbounded(before.rows[i]) then
        FailedTo(before.rows[i], after.rows[i], w, "worker: shutdown grace period elapsed before task finished",
                 jitter, before.now)
      else after.rows[i] == before.rows[i]
  }

  lemma ReleaseKeeps(before: Db, after: Db, w: string, id: int, jitter: real)
    requires ReleasedAt(before, after, w, id, jitter)
    ensures forall x | Owns(after, w, x) :: Kept(before, after, w, x)
    ensures Owns(after, w, id) ==> Unbounded(after.rows[id])
  {
  }

  /** Task i has succeeded only if it had before, or one of the statements completed it. */
  ghost predicate SucceededBy(before: Rows, others: seq<Event>, after: Rows, i: int) {
    i in after && after[i].status == Succeeded ==>
      (i in before && before[i].status == Succeeded) || exists e :: e in others && e.Complete? && e.id == i
  }

  lemma {:induction false} SucceedsByComplete(before: Db, es: seq<Event>, after: Db, i: int)
    requires Inv(before) && Ran(before, es, after)
    ensures SucceededBy(before.rows, es, after.rows, i)
  {
    if es != [] {
      var front, e := es[..|es| - 1], es[|es| - 1];
      var mid := Exec(before, front);
      SucceedsByComplete(before, front, mid, i);
      InvRun(before, front);
      assert e in es && forall x | x in front :: x in es;
      if i in mid.rows {
        RowStep(mid, e, i);
      }
    }
  }

  ghost predicate NoneSucceeds(before: Rows, others: seq<Event>, after: Rows) {
    forall i | i in after :: SucceededBy(before, others, after, i)
  }

  lemma NoneSucceedsAdd(start: Rows, others: seq<Event>, before: Db, done: seq<Event>, at: Db, after: Db)
    requires Inv(before) && Ran(before, done, at) && NoneSucceeds(start, others, before.rows)
    requires forall i | i in after.rows && after.rows[i].status == Succeeded ::
               i in at.rows && at.rows[i].status == Succeeded
    ensures NoneSucceeds(start, others + done, after.rows)
  {
    forall i | i in after.rows ensures SucceededBy(start, others + done, after.rows, i) {
      SucceededAdd(start, others, before, done, at, after.rows, i);
    }
  }

  lemma SucceededAdd(start: Rows, others: seq<Event>, before: Db, done: seq<Event>, at: Db, after: Rows, i: int)
    requires Inv(before) && Ran(before, done, at)
    requires i in before.rows ==> SucceededBy(start, others, before.rows, i)
    requires i in after && after[i].status == Succeeded ==> i in at.rows && at.rows[i].status == Succeeded
    ensures SucceededBy(start, others + done, after, i)
  {
    SucceedsByComplete(before, done, at, i);
    assert forall e | e in others || e in done :: e in others + done;
  }

  /** The worker still owns the row, through the same attempt. */
  ghost predicate Kept(before: Db, after: Db, w: string, id: int) {
    Owns(before, w, id) && id in after.rows &&
    after.rows[id].attempts == before.rows[id].attempts && after.rows[id].maxAttempts == before.rows[id].maxAttempts
  }
}
