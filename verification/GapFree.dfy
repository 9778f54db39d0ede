// Recurring schedules under any number of scheduler nodes: stale snapshots, failed inserts,
// crashes between insert and advance, all interleaved.
module GapFree {
  import opened Wrappers
  import opened Tasks
  import opened TaskStore
  import opened Materializer
  import Cron
  import Keys

  /** One node's pass over the schedule: the watermark it read, its own clock, its plan, and
      whether the insert has succeeded. */
  datatype Pass = Pass(read: Option<int>, now: int, fires: seq<int>, inserted: bool)

  /** The task table, one schedule row, and the passes in progress. origin records where the
      first advance started; no code reads it. */
  datatype World = World(db: Db, rule: Rule, origin: Option<int>, passes: map<int, Pass>)

  datatype Move =
    | Read(p: int, now: int, horizon: int)
    | Submit(p: int)
    | Abandon(p: int)
    | Advance(p: int)
    | Toggle(enabled: bool)
    | Env(e: Event)

  function Calendar(w: World): Cron.Schedule
    requires w.rule.calendar.Some?
  {
    w.rule.calendar.value
  }

  function PlanOf(w: World, now: int, horizon: int): seq<int>
    requires w.rule.calendar.Some?
  {
    PlanFrom(Calendar(w), Seed(w.rule.lastMaterializedAt, now), now + horizon)
  }

  ghost predicate Can(w: World, m: Move) {
    w.rule.calendar.Some? &&
    match m
    case Read(p, now, horizon) => p !in w.passes && w.rule.enabled && PlanOf(w, now, horizon) != []
    case Submit(p) => p in w.passes && !w.passes[p].inserted && AllInRange(w.passes[p].fires)
    case Abandon(p) => p in w.passes
    case Advance(p) => p in w.passes && w.passes[p].inserted && w.passes[p].fires != []
    case Toggle(_) => true
    case Env(e) => ValidJitter(e) && Enabled(w.db, e)
  }

  function Last(pass: Pass): int
    requires pass.fires != []
  {
    pass.fires[|pass.fires| - 1]
  }

  /** Where the fires of a pass begin. */
  function StartOf(c: Cron.Schedule, pass: Pass): int {
    Cron.StartOf(c, Seed(pass.read, pass.now))
  }

  ghost function Do(w: World, m: Move): World
    requires Can(w, m)
  {
    match m
    case Read(p, now, horizon) =>
      w.(passes := w.passes[p := Pass(w.rule.lastMaterializedAt, now, PlanOf(w, now, horizon), false)])
    case Submit(p) =>
      w.(db := InsertAll(w.db, TasksFor(w.rule, w.passes[p].fires)),
         passes := w.passes[p := w.passes[p].(inserted := true)])
    case Abandon(p) => w.(passes := w.passes - {p})
    case Advance(p) =>
      w.(rule := w.rule.(lastMaterializedAt := Advanced(w.rule.lastMaterializedAt, Last(w.passes[p]))),
         origin := if w.rule.lastMaterializedAt.None? then Some(StartOf(Calendar(w), w.passes[p])) else w.origin,
         passes := w.passes - {p})
    case Toggle(enabled) => w.(rule := w.rule.(enabled := enabled))
    case Env(e) => w.(db := Next(w.db, e))
  }

  // ----- the invariant -----

  ghost predicate Filled(w: World, from: int, to: int)
    requires w.rule.calendar.Some? && w.rule.Valid()
  {
    forall f | Cron.Accepted(Calendar(w), f) && from < f <= to :: Materialized(w.db, w.rule, f)
  }

  ghost predicate PassOk(w: World, pass: Pass)
    requires w.rule.calendar.Some? && w.rule.Valid()
  {
    && Contiguous(Calendar(w), StartOf(Calendar(w), pass), pass.fires)
    && (pass.read.Some? ==>
          w.rule.lastMaterializedAt.Some? && pass.read.value <= w.rule.lastMaterializedAt.value &&
          Cron.Accepted(Calendar(w), pass.read.value))
    && (pass.inserted ==> Filled(w, StartOf(Calendar(w), pass), Last(pass)))
  }

  ghost predicate WorldOk(w: World) {
    && Inv(w.db)
    && w.rule.Valid()
    && w.rule.calendar.Some?
    && (w.rule.lastMaterializedAt.Some? ==>
          w.origin.Some? && Cron.Accepted(Calendar(w), w.rule.lastMaterializedAt.value) &&
          w.origin.value < w.rule.lastMaterializedAt.value &&
          Filled(w, w.origin.value, w.rule.lastMaterializedAt.value))
    && forall p | p in w.passes :: PassOk(w, w.passes[p])
  }

  /** The hypothesis: a pass that read no watermark does not advance an already set one from a
      clock reading ahead of it. */
  ghost predicate Punctual(w: World, m: Move) {
    m.Advance? && m.p in w.passes && w.passes[m.p].read.None? && w.rule.lastMaterializedAt.Some? ==>
      w.passes[m.p].now <= w.rule.lastMaterializedAt.value
  }

  // ----- rows stay -----

  lemma FilledStays(w: World, e: Event, from: int, to: int)
    requires WorldOk(w) && ValidJitter(e) && Enabled(w.db, e) && Filled(w, from, to)
    ensures Filled(w.(db := Next(w.db, e)), from, to)
  {
    forall f | Cron.Accepted(Calendar(w), f) && from < f <= to
      ensures Materialized(Next(w.db, e), w.rule, f)
    {
      KeyStays(w.db, e, w.rule.queue, Some(Keys.KeyFor(w.rule.id, f)));
    }
  }

  lemma {:induction false} KeyStaysInBatch(db: Db, subs: seq<Submission>, queue: string, key: Option<string>)
    requires Inv(db) && KeyTaken(db.rows, queue, key)
    ensures KeyTaken(InsertAll(db, subs).rows, queue, key)
  {
    if subs != [] {
      var front, last := subs[..|subs| - 1], subs[|subs| - 1];
      InsertAllRun(db, front);
      KeyStaysInBatch(db, front, queue, key);
      KeyStays(InsertAll(db, front), Event.Insert(last), queue, key);
    }
  }

  lemma EnvOk(w: World, e: Event)
    requires WorldOk(w) && Can(w, Env(e))
    ensures WorldOk(Do(w, Env(e)))
  {
    InvStep(w.db, e);
    if w.rule.lastMaterializedAt.Some? {
      FilledStays(w, e, w.origin.value, w.rule.lastMaterializedAt.value);
    }
    forall p | p in w.passes ensures PassOk(Do(w, Env(e)), w.passes[p]) {
      if w.passes[p].inserted {
        FilledStays(w, e, StartOf(Calendar(w), w.passes[p]), Last(w.passes[p]));
      }
    }
  }

  lemma SubmitOk(w: World, p: int)
    requires WorldOk(w) && Can(w, Submit(p))
    ensures WorldOk(Do(w, Submit(p)))
  {
    var pass := w.passes[p];
    var subs := TasksFor(w.rule, pass.fires);
    var w' := Do(w, Submit(p));
    InsertAllRun(w.db, subs);
    forall f | Cron.Accepted(Calendar(w), f) && Materialized(w.db, w.rule, f)
      ensures Materialized(w'.db, w.rule, f)
    {
      KeyStaysInBatch(w.db, subs, w.rule.queue, Some(Keys.KeyFor(w.rule.id, f)));
    }
    assert PassOk(w, pass);
    forall f | Cron.Accepted(Calendar(w), f) && StartOf(Calendar(w), pass) < f <= Last(pass)
      ensures Materialized(w'.db, w.rule, f)
    {
      assert f in pass.fires;
      InsertMaterializes(w.db, w.rule, pass.fires, f);
    }
    forall q | q in w'.passes ensures PassOk(w', w'.passes[q]) {
      assert PassOk(w, w.passes[q]);
    }
  }

  lemma NewPassOk(w: World, now: int, horizon: int)
    requires WorldOk(w) && PlanOf(w, now, horizon) != []
    ensures PassOk(w, Pass(w.rule.lastMaterializedAt, now, PlanOf(w, now, horizon), false))
  {
    PlanContiguous(Calendar(w), Seed(w.rule.lastMaterializedAt, now), now + horizon);
  }

  lemma ReadOk(w: World, p: int, now: int, horizon: int)
    requires WorldOk(w) && Can(w, Read(p, now, horizon))
    ensures WorldOk(Do(w, Read(p, now, horizon)))
  {
    NewPassOk(w, now, horizon);
    var w' := Do(w, Read(p, now, horizon));
    forall q | q in w'.passes ensures PassOk(w', w'.passes[q]) {
      assert PassOk(w, w'.passes[q]);
    }
  }

  // ----- the advance -----

  /** The plan of a pass that read an accepted watermark starts right there. */
  lemma StartAtRead(c: Cron.Schedule, pass: Pass)
    requires c.Valid() && pass.read.Some? && Cron.Accepted(c, pass.read.value)
    ensures StartOf(c, pass) == pass.read.value
  {
    Cron.CanonicalAccepted(c, pass.read.value);
    var a := Cron.AcceptedAfter(c, pass.read.value);
    Cron.AcceptedAfterSpec(c, pass.read.value);
    if a != [] {
      assert a[0] in a;
      if c.zone.wall(a[0]) == c.zone.wall(pass.read.value) {
        Cron.WallClockUnique(c, a[0], pass.read.value);
      }
    }
  }

  /** A clock reading not behind an accepted watermark cannot start behind it either. */
  lemma StartNotLater(c: Cron.Schedule, now: int, mark: int)
    requires c.Valid() && Cron.Accepted(c, mark) && now <= mark
    ensures Cron.StartOf(c, now) <= mark
  {
    var a := Cron.AcceptedAfter(c, now);
    Cron.AcceptedAfterSpec(c, now);
    if Cron.StartOf(c, now) != now {
      if now < mark {
        var k :| 0 <= k < |a| && a[k] == mark;
      } else {
        assert a[0] in a;
        Cron.CanonicalAccepted(c, mark);
        Cron.WallClockUnique(c, a[0], mark);
      }
    }
  }

  /** Where the plan of a punctual pass begins, relative to a set watermark. */
  lemma PunctualStart(w: World, p: int)
    requires WorldOk(w) && Can(w, Advance(p)) && Punctual(w, Advance(p)) && w.rule.lastMaterializedAt.Some?
    ensures StartOf(Calendar(w), w.passes[p]) <= w.rule.lastMaterializedAt.value
  {
    var pass := w.passes[p];
    assert PassOk(w, pass);
    if pass.read.Some? {
      StartAtRead(Calendar(w), pass);
    } else {
      StartNotLater(Calendar(w), pass.now, w.rule.lastMaterializedAt.value);
    }
  }

  /** The range behind the new watermark is filled: old range and plan meet. */
  lemma AdvanceFills(w: World, p: int)
    requires WorldOk(w) && Can(w, Advance(p)) && Punctual(w, Advance(p))
    ensures var w' := Do(w, Advance(p));
            w'.rule.lastMaterializedAt.Some? && w'.origin.Some? &&
            Cron.Accepted(Calendar(w), w'.rule.lastMaterializedAt.value) &&
            w'.origin.value < w'.rule.lastMaterializedAt.value &&
            Filled(w', w'.origin.value, w'.rule.lastMaterializedAt.value)
  {
    assert PassOk(w, w.passes[p]);
    assert Last(w.passes[p]) in w.passes[p].fires;
    if w.rule.lastMaterializedAt.Some? {
      PunctualStart(w, p);
    }
  }

  lemma AdvanceOk(w: World, p: int)
    requires WorldOk(w) && Can(w, Advance(p)) && Punctual(w, Advance(p))
    ensures WorldOk(Do(w, Advance(p)))
  {
    var w' := Do(w, Advance(p));
    AdvanceFills(w, p);
    forall q | q in w'.passes ensures PassOk(w', w'.passes[q]) {
      assert PassOk(w, w.passes[q]);
    }
  }

  /** Every move of every node, and everything else that happens to the table, keeps the
      range behind the watermark filled. */
  lemma MoveOk(w: World, m: Move)
    requires WorldOk(w) && Can(w, m) && Punctual(w, m)
    ensures WorldOk(Do(w, m))
  {
    match m {
      case Read(p, now, horizon) => ReadOk(w, p, now, horizon);
      case Submit(p) => SubmitOk(w, p);
      case Advance(p) => AdvanceOk(w, p);
      case Env(e) => EnvOk(w, e);
      case Abandon(_) =>
        assert forall q | q in Do(w, m).passes :: PassOk(w, w.passes[q]);
      case Toggle(_) =>
        assert forall q | q in Do(w, m).passes :: PassOk(w, w.passes[q]);
    }
  }

  /** The watermark never moves backward, punctual or not. */
  lemma WatermarkMonotone(w: World, m: Move)
    requires Can(w, m)
    ensures w.rule.lastMaterializedAt.Some? ==>
              Do(w, m).rule.lastMaterializedAt.Some? &&
              w.rule.lastMaterializedAt.value <= Do(w, m).rule.lastMaterializedAt.value
  {
  }

  // ----- runs -----

  ghost predicate Moves(w: World, ms: seq<Move>)
    decreases |ms|, 0
  {
    ms == [] || (Moves(w, ms[..|ms| - 1]) && Can(Moved(w, ms[..|ms| - 1]), ms[|ms| - 1]))
  }

  ghost function Moved(w: World, ms: seq<Move>): World
    requires Moves(w, ms)
    decreases |ms|, 1
  {
    if ms == [] then w else Do(Moved(w, ms[..|ms| - 1]), ms[|ms| - 1])
  }

  ghost predicate PunctualRun(w: World, ms: seq<Move>)
    requires Moves(w, ms)
  {
    ms == [] || (PunctualRun(w, ms[..|ms| - 1]) && Punctual(Moved(w, ms[..|ms| - 1]), ms[|ms| - 1]))
  }

  lemma {:induction false} MovesOk(w: World, ms: seq<Move>)
    requires WorldOk(w) && Moves(w, ms) && PunctualRun(w, ms)
    ensures WorldOk(Moved(w, ms))
    ensures Moved(w, ms).rule.calendar == w.rule.calendar && Moved(w, ms).rule.id == w.rule.id
    ensures Moved(w, ms).rule.queue == w.rule.queue
    ensures w.rule.lastMaterializedAt.Some? ==>
              Moved(w, ms).rule.lastMaterializedAt.Some? &&
              w.rule.lastMaterializedAt.value <= Moved(w, ms).rule.lastMaterializedAt.value
  {
    if ms != [] {
      MovesOk(w, ms[..|ms| - 1]);
      MoveOk(Moved(w, ms[..|ms| - 1]), ms[|ms| - 1]);
      WatermarkMonotone(Moved(w, ms[..|ms| - 1]), ms[|ms| - 1]);
    }
  }

  /** Row `id` is the one row under the key of fire `f`. */
  ghost predicate OnlyRow(w: World, f: int, id: int)
    requires Keys.InRange(f)
  {
    var key := Some(Keys.KeyFor(w.rule.id, f));
    id in w.db.rows && HoldsKey(w.db.rows[id], w.rule.queue, key) &&
    forall other | other in w.db.rows && HoldsKey(w.db.rows[other], w.rule.queue, key) :: other == id
  }

  /** A fresh schedule: never materialized, nobody working on it. */
  ghost predicate Fresh(w: World) {
    Inv(w.db) && w.rule.Valid() && w.rule.calendar.Some? && w.rule.lastMaterializedAt.None? && w.passes == map[]
  }

  /** Gap-free materialization. Whatever any number of nodes do, once the watermark stands at
      W it is itself an accepted fire, and every accepted fire between the origin and W has
      exactly one row under its key. */
  lemma GapFreeMaterialization(w: World, ms: seq<Move>, f: int)
    requires Fresh(w) && Moves(w, ms) && PunctualRun(w, ms)
    requires Moved(w, ms).rule.lastMaterializedAt.Some?
    ensures w.rule.calendar.Some? && Moved(w, ms).origin.Some?
    ensures Cron.Accepted(Calendar(w), Moved(w, ms).rule.lastMaterializedAt.value)
    ensures Cron.Accepted(Calendar(w), f) &&
            Moved(w, ms).origin.value < f <= Moved(w, ms).rule.lastMaterializedAt.value ==>
              Keys.InRange(f) && exists id :: OnlyRow(Moved(w, ms), f, id)
  {
    MovesOk(w, ms);
    var end := Moved(w, ms);
    if Cron.Accepted(Calendar(w), f) && end.origin.value < f <= end.rule.lastMaterializedAt.value {
      assert Materialized(end.db, end.rule, f);
      var key := Some(Keys.KeyFor(end.rule.id, f));
      var id := Holder(end.db.rows, end.rule.queue, key);
      forall other | other in end.db.rows && HoldsKey(end.db.rows[other], end.rule.queue, key) ensures other == id {
        assert HoldsKey(end.db.rows[other], end.db.rows[id].queue, end.db.rows[id].key);
      }
      assert OnlyRow(end, f, id);
    }
  }

  /** Different fires have different rows. */
  lemma DistinctFiresDistinctRows(w: World, f: int, g: int, id: int)
    requires w.rule.Valid() && w.rule.calendar.Some?
    requires Cron.Accepted(Calendar(w), f) && Cron.Accepted(Calendar(w), g)
    requires OnlyRow(w, f, id) && OnlyRow(w, g, id)
    ensures f == g
  {
    Cron.CanonicalAccepted(Calendar(w), f);
    Cron.CanonicalAccepted(Calendar(w), g);
    Keys.KeyInjective(w.rule.id, f, w.rule.id, g);
  }

  // ----- the hypothesis is needed -----

  /** Exactly when an advance leaves no gap: every accepted fire it jumps over, between the old
      watermark and the start of its plan, already has a row. */
  lemma AdvanceGapFreeIff(w: World, p: int)
    requires WorldOk(w) && Can(w, Advance(p)) && w.rule.lastMaterializedAt.Some?
    requires w.rule.lastMaterializedAt.value < Last(w.passes[p])
    ensures Filled(Do(w, Advance(p)), w.origin.value, Last(w.passes[p])) <==>
            Filled(w, w.rule.lastMaterializedAt.value, StartOf(Calendar(w), w.passes[p]))
  {
    var c, pass, w' := Calendar(w), w.passes[p], Do(w, Advance(p));
    assert PassOk(w, pass);
    assert Last(pass) in pass.fires;
    if Filled(w', w.origin.value, Last(pass)) {
      forall f | Cron.Accepted(c, f) && w.rule.lastMaterializedAt.value < f <= StartOf(c, pass)
        ensures Materialized(w.db, w.rule, f)
      {
        assert Materialized(w'.db, w'.rule, f);
      }
    }
  }

  /** When nobody else has inserted the fires it jumps over, it leaves no gap if and only if
      there are none. */
  lemma UnaidedAdvanceGapFreeIff(w: World, p: int)
    requires WorldOk(w) && Can(w, Advance(p)) && w.rule.lastMaterializedAt.Some?
    requires w.rule.lastMaterializedAt.value < Last(w.passes[p])
    requires forall f | Cron.Accepted(Calendar(w), f) &&
                        w.rule.lastMaterializedAt.value < f <= StartOf(Calendar(w), w.passes[p]) ::
               !Materialized(w.db, w.rule, f)
    ensures Filled(Do(w, Advance(p)), w.origin.value, Last(w.passes[p])) <==>
            (forall f | Cron.Accepted(Calendar(w), f) ::
               !(w.rule.lastMaterializedAt.value < f <= StartOf(Calendar(w), w.passes[p])))
  {
    AdvanceGapFreeIff(w, p);
  }

  // ----- such a gap is reached -----

  /** Inserting under other keys leaves a key free. */
  lemma {:induction false} KeyStaysFree(db: Db, subs: seq<Submission>, queue: string, key: Option<string>)
    requires forall i | 0 <= i < |subs| :: subs[i].key != key
    requires !KeyTaken(db.rows, queue, key)
    ensures !KeyTaken(InsertAll(db, subs).rows, queue, key)
  {
    if subs != [] {
      var front, last := subs[..|subs| - 1], subs[|subs| - 1];
      KeyStaysFree(db, front, queue, key);
      var mid, after := InsertAll(db, front), InsertAll(db, subs);
      forall id | id in after.rows ensures !HoldsKey(after.rows[id], queue, key) {
        if id in mid.rows && after.rows[id] == mid.rows[id] {
          assert !HoldsKey(mid.rows[id], queue, key);
        }
      }
    }
  }

  /** Materializing other fires does not materialize this one. */
  lemma OtherFires(db: Db, r: Rule, fires: seq<int>, f: int)
    requires AllInRange(fires) && Keys.InRange(f) && f % Retry.SECOND == 0 && f !in fires
    requires forall g | g in fires :: g % Retry.SECOND == 0
    requires !Materialized(db, r, f)
    ensures !Materialized(InsertAll(db, TasksFor(r, fires)), r, f)
  {
    var subs := TasksFor(r, fires);
    forall i | 0 <= i < |subs| ensures subs[i].key != Some(Keys.KeyFor(r.id, f)) {
      assert fires[i] in fires;
      Keys.KeyInjective(r.id, fires[i], r.id, f);
      assert subs[i] == TaskFor(r, fires[i]);
    }
    KeyStaysFree(db, subs, r.queue, Some(Keys.KeyFor(r.id, f)));
  }

  lemma MovesSnoc(w: World, ms: seq<Move>, m: Move)
    requires Moves(w, ms) && Can(Moved(w, ms), m)
    ensures Moves(w, ms + [m]) && Moved(w, ms + [m]) == Do(Moved(w, ms), m)
  {
    assert (ms + [m])[..|ms + [m]| - 1] == ms;
  }

  lemma {:induction false} MovesPrepend(w: World, m: Move, ms: seq<Move>)
    requires Can(w, m) && Moves(Do(w, m), ms)
    ensures Moves(w, [m] + ms) && Moved(w, [m] + ms) == Moved(Do(w, m), ms)
    decreases |ms|
  {
    if ms == [] {
      MovesSnoc(w, [], m);
      assert [m] + ms == [] + [m];
    } else {
      MovesPrepend(w, m, ms[..|ms| - 1]);
      MovesSnoc(w, [m] + ms[..|ms| - 1], ms[|ms| - 1]);
      assert [m] + ms == ([m] + ms[..|ms| - 1]) + [ms[|ms| - 1]];
    }
  }

  /** The watermark can come to stand at `mark` while `f` has no row. */
  ghost predicate CanSkip(w: World, f: int, mark: int)
    requires Keys.InRange(f)
  {
    exists ms ::
      Moves(w, ms) && Moved(w, ms).rule.lastMaterializedAt == Some(mark) && !Materialized(Moved(w, ms).db, w.rule, f)
  }

  lemma StepSkips(w: World, m: Move, f: int, mark: int)
    requires Keys.InRange(f) && Can(w, m) && CanSkip(Do(w, m), f, mark)
    ensures CanSkip(w, f, mark)
  {
    var next := Do(w, m);
    var ms :| Moves(next, ms) && Moved(next, ms).rule.lastMaterializedAt == Some(mark) &&
      !Materialized(Moved(next, ms).db, next.rule, f);
    MovesPrepend(w, m, ms);
  }

  /** The fires a pass of this world can carry. */
  ghost predicate Fires(w: World, fires: seq<int>) {
    fires != [] && AllInRange(fires) && forall f | f in fires :: f % Retry.SECOND == 0
  }

  lemma AdvancesSkip(w: World, f: int, a: int, b: int)
    requires Keys.InRange(f) && w.rule.calendar.Some? && w.rule.lastMaterializedAt.None? && a < b
    requires 1 in w.passes && 2 in w.passes && w.passes[1].inserted && w.passes[2].inserted
    requires w.passes[1].fires != [] && w.passes[2].fires != [] && Last(w.passes[1]) == a && Last(w.passes[2]) == b
    requires !Materialized(w.db, w.rule, f)
    ensures CanSkip(w, f, b)
  {
    var w1 := Do(w, Advance(1));
    var w2 := Do(w1, Advance(2));
    assert Moves(w2, []) && Moved(w2, []) == w2;
    assert CanSkip(w2, f, b);
    StepSkips(w1, Advance(2), f, b);
    StepSkips(w, Advance(1), f, b);
  }

  lemma AfterSubmit(w: World, p: int, f: int)
    requires Keys.InRange(f) && f % Retry.SECOND == 0 && w.rule.calendar.Some? && !Materialized(w.db, w.rule, f)
    requires p in w.passes && !w.passes[p].inserted && Fires(w, w.passes[p].fires) && f !in w.passes[p].fires
    ensures !Materialized(Do(w, Submit(p)).db, w.rule, f)
  {
    OtherFires(w.db, w.rule, w.passes[p].fires, f);
  }

  /** The second node inserts, with the first already done, and both advance. */
  lemma SecondInsertSkips(w: World, f: int, a: int, b: int)
    requires Keys.InRange(f) && f % Retry.SECOND == 0 && a < b
    requires w.rule.calendar.Some? && w.rule.lastMaterializedAt.None?
    requires 1 in w.passes && 2 in w.passes && w.passes[1].inserted && !w.passes[2].inserted
    requires w.passes[1].fires != [] && Last(w.passes[1]) == a
    requires Fires(w, w.passes[2].fires) && Last(w.passes[2]) == b && f !in w.passes[2].fires
    requires !Materialized(w.db, w.rule, f)
    ensures CanSkip(w, f, b)
  {
    AfterSubmit(w, 2, f);
    AdvancesSkip(Do(w, Submit(2)), f, a, b);
    StepSkips(w, Submit(2), f, b);
  }

  lemma InsertsSkip(w: World, f: int, a: int, b: int)
    requires Keys.InRange(f) && f % Retry.SECOND == 0 && a < b
    requires w.rule.calendar.Some? && w.rule.lastMaterializedAt.None?
    requires 1 in w.passes && 2 in w.passes && !w.passes[1].inserted && !w.passes[2].inserted
    requires Fires(w, w.passes[1].fires) && Last(w.passes[1]) == a && f !in w.passes[1].fires
    requires Fires(w, w.passes[2].fires) && Last(w.passes[2]) == b && f !in w.passes[2].fires
    requires !Materialized(w.db, w.rule, f)
    ensures CanSkip(w, f, b)
  {
    AfterSubmit(w, 1, f);
    SecondInsertSkips(Do(w, Submit(1)), f, a, b);
    StepSkips(w, Submit(1), f, b);
  }

  lemma PlanFires(w: World, now: int, horizon: int)
    requires Fresh(w) && PlanOf(w, now, horizon) != []
    ensures Fires(w, PlanOf(w, now, horizon))
    ensures forall f | f in PlanOf(w, now, horizon) ::
              Cron.StartOf(Calendar(w), now) < f <= PlanOf(w, now, horizon)[|PlanOf(w, now, horizon)| - 1]
  {
    var c, fires := Calendar(w), PlanOf(w, now, horizon);
    PlanContiguous(c, now, now + horizon);
    forall f | f in fires ensures Keys.InRange(f) && f % Retry.SECOND == 0 {
      assert Cron.Accepted(c, f);
      Cron.CanonicalAccepted(c, f);
    }
  }

  /** Two nodes make the first pass over a fresh schedule and both read no watermark. If the
      second plans from behind a fire that the first plan does not reach, nobody ever plans
      that fire, and the watermark passes it: whatever the calendar, clocks and horizons. */
  lemma TwoFirstPassesLeaveGap(w: World, now1: int, horizon1: int, now2: int, horizon2: int, f: int)
    requires Fresh(w) && w.rule.enabled && Cron.Accepted(Calendar(w), f)
    requires Keys.InRange(f) && !Materialized(w.db, w.rule, f)
    requires PlanOf(w, now1, horizon1) != [] && PlanOf(w, now2, horizon2) != []
    requires PlanOf(w, now1, horizon1)[|PlanOf(w, now1, horizon1)| - 1] < f <= Cron.StartOf(Calendar(w), now2)
    ensures CanSkip(w, f, PlanOf(w, now2, horizon2)[|PlanOf(w, now2, horizon2)| - 1])
  {
    var first, second := PlanOf(w, now1, horizon1), PlanOf(w, now2, horizon2);
    PlanFires(w, now1, horizon1);
    PlanFires(w, now2, horizon2);
    Cron.CanonicalAccepted(Calendar(w), f);
    assert second[|second| - 1] in second;
    var w1 := Do(w, Read(1, now1, horizon1));
    var w2 := Do(w1, Read(2, now2, horizon2));
    InsertsSkip(w2, f, first[|first| - 1], second[|second| - 1]);
    StepSkips(w1, Read(2, now2, horizon2), f, second[|second| - 1]);
    StepSkips(w, Read(1, now1, horizon1), f, second[|second| - 1]);
  }

  // ----- an instance -----

  const MINUTE: int := 60 * Retry.SECOND

  const UTC := Cron.Zone(t => t / Retry.SECOND, (wall, part) => wall * Retry.SECOND + part)

  /** The rule "* * * * *" in UTC, as far as it matters here. */
  ghost predicate EveryMinute(c: Cron.Schedule) {
    c.zone == UTC && |c.fires| >= 4 && forall k | 0 <= k < |c.fires| :: c.fires[k] == (k + 1) * MINUTE
  }

  /** In UTC every fire is accepted and no whole-second seed between fires repeats a wall clock. */
  lemma Owing(c: Cron.Schedule, seed: int, k: nat, rest: seq<int>)
    requires c.Valid() && c.zone == UTC && k < |c.fires| && rest == c.fires[k..]
    requires forall i | 0 <= i < |c.fires| :: c.fires[i] > seed <==> i >= k
    requires seed % Retry.SECOND == 0
    ensures Cron.Owed(c, seed) == rest && Cron.StartOf(c, seed) == seed
  {
    forall t ensures Cron.RoundTrips(UTC, t) {
    }
    assert Cron.Canonical(c, seed);
    Cron.CanonicalOwed(c, seed);
    Cron.AcceptedAfterSpec(c, seed);
    forall f ensures f in Cron.AcceptedAfter(c, seed) <==> f in rest {
      if f in rest {
        var i :| 0 <= i < |rest| && rest[i] == f;
        assert c.fires[k + i] == f;
      }
      if Cron.Accepted(c, f) && f > seed {
        var i :| 0 <= i < |c.fires| && c.fires[i] == f;
        assert rest[i - k] == f;
      }
    }
    Cron.AscendingUnique(Cron.AcceptedAfter(c, seed), rest);
  }

  /** The plan holds the one fire within the horizon. */
  lemma OneFirePlan(c: Cron.Schedule, seed: int, until: int, k: nat)
    requires c.Valid() && EveryMinute(c) && k + 1 < |c.fires| && seed % Retry.SECOND == 0
    requires k * MINUTE <= seed < (k + 1) * MINUTE <= until < (k + 2) * MINUTE
    ensures PlanFrom(c, seed, until) == [(k + 1) * MINUTE] && Cron.StartOf(c, seed) == seed
  {
    var rest := c.fires[k..];
    forall i | 0 <= i < |c.fires| ensures c.fires[i] > seed <==> i >= k {
      assert i >= k ==> (i + 1) * MINUTE >= (k + 1) * MINUTE;
      assert i < k ==> (i + 1) * MINUTE <= k * MINUTE;
    }
    Owing(c, seed, k, rest);
    var candidates := Cron.Take(rest, MAX_PLANNED);
    assert candidates[0] == c.fires[k] && candidates[1] == c.fires[k + 1];
    UpToUnique(candidates, until, [c.fires[k]]);
  }

  /** Every minute, with a horizon of one: the first pass at 0 plans the fire of minute one, a
      pass at two and a half minutes that of minute three, and minute two is lost. */
  lemma MinuteTwoIsLost(w: World)
    requires Fresh(w) && w.db.rows == map[] && w.rule.enabled && EveryMinute(Calendar(w))
    ensures Cron.Accepted(Calendar(w), 2 * MINUTE) && Keys.InRange(2 * MINUTE)
    ensures CanSkip(w, 2 * MINUTE, 3 * MINUTE)
  {
    var c := Calendar(w);
    assert c.fires[1] == 2 * MINUTE;
    OneFirePlan(c, 0, MINUTE, 0);
    OneFirePlan(c, 150 * Retry.SECOND, 150 * Retry.SECOND + MINUTE, 2);
    TwoFirstPassesLeaveGap(w, 0, MINUTE, 150 * Retry.SECOND, MINUTE, 2 * MINUTE);
  }
}
