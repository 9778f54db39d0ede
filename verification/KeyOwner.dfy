// Whose row stands under a key: the one that was meant for it, or a client's.
module KeyOwner {
  import opened Wrappers
  import opened Tasks
  import opened Effects
  import opened TaskStore
  import opened Materializer
  import opened GapFree
  import Cron
  import Keys
  import Retry

  /** The columns a row is to have; the run time is left open when `at` is None. */
  datatype Want = Want(
    handler: string,
    payload: string,
    priority: int,
    maxAttempts: int,
    scheduleId: Option<int>,
    at: Option<int>)

  /** The row has them. Its run time counts until it is first claimed; retries rewrite it. */
  predicate Meets(t: Task, want: Want) {
    t.handler == want.handler && t.payload == want.payload && t.priority == want.priority &&
    t.maxAttempts == want.maxAttempts && t.scheduleId == want.scheduleId &&
    (want.at.Some? ==> t.runAt == want.at.value)
  }

  /** A submission at instant `now` asks for them. */
  predicate Asks(sub: Submission, now: int, want: Want) {
    sub.handler == want.handler && sub.payload == Some(want.payload) && sub.priority == want.priority &&
    (if sub.maxAttempts == 0 then 5 else sub.maxAttempts) == want.maxAttempts && sub.scheduleId == want.scheduleId &&
    (want.at.Some? ==> (if sub.runAt.Some? then sub.runAt.value else now) == want.at.value)
  }

  /** The row tells whether the columns are as wanted: always, but for the run time of a row that
      has been claimed. */
  predicate Tells(t: Task, want: Want) {
    want.at.None? || t.attempts == 0
  }

  predicate Under(t: Task, queue: string, key: Option<string>) {
    t.queue == queue && t.key == key
  }

  /** The statement takes the key for a task other than the one meant for it. */
  predicate TakesKey(db: Db, e: Event, queue: string, key: Option<string>, want: Want) {
    e.Insert? && Storable(e.sub) && !UnderKey(db.rows, queue, key) &&
    e.sub.queue == queue && e.sub.key == key && !Asks(e.sub, db.now, want)
  }

  /** The key is free and was never taken, or the row that holds it is the one meant for it
      exactly if the key was not taken. */
  ghost predicate Story(db: Db, queue: string, key: Option<string>, want: Want, taken: bool) {
    && (!UnderKey(db.rows, queue, key) ==> !taken)
    && forall id | id in db.rows && Under(db.rows[id], queue, key) && Tells(db.rows[id], want) ::
         Meets(db.rows[id], want) <==> !taken
  }

  lemma StoryInsert(db: Db, sub: Submission, queue: string, key: Option<string>, want: Want, taken: bool)
    requires Inv(db) && key.Some? && Story(db, queue, key, want, taken)
    ensures Story(Inserted(db, sub), queue, key, want, taken || TakesKey(db, Insert(sub), queue, key, want))
  {
    InsertEffect(db, sub);
    var after := Inserted(db, sub);
    assert after == Next(db, Insert(sub));
    forall id | id in after.rows && Under(after.rows[id], queue, key) && Tells(after.rows[id], want)
      ensures Meets(after.rows[id], want) <==> !(taken || TakesKey(db, Insert(sub), queue, key, want))
    {
      if id in db.rows {
        assert Under(db.rows[id], queue, key);
      }
    }
    forall id | id in db.rows && Under(db.rows[id], queue, key) ensures UnderKey(after.rows, queue, key) {
      assert after.rows[id] == db.rows[id];
    }
    if TakesKey(db, Insert(sub), queue, key, want) {
      assert Under(after.rows[db.nextId], queue, key);
    }
  }

  lemma StoryUpdate(db: Db, e: Event, queue: string, key: Option<string>, want: Want, taken: bool)
    requires Inv(db) && ValidJitter(e) && Enabled(db, e) && !e.Insert? && Story(db, queue, key, want, taken)
    ensures Story(Next(db, e), queue, key, want, taken)
  {
    var after := Next(db, e);
    assert after.rows.Keys == db.rows.Keys;
    forall id | id in db.rows
      ensures Under(after.rows[id], queue, key) == Under(db.rows[id], queue, key)
      ensures after.rows[id].attempts == 0 ==> db.rows[id].attempts == 0 && after.rows[id].runAt == db.rows[id].runAt
      ensures after.rows[id].(runAt := db.rows[id].runAt, attempts := db.rows[id].attempts,
                              status := db.rows[id].status, claimedBy := db.rows[id].claimedBy,
                              heartbeatAt := db.rows[id].heartbeatAt,
                              lastError := db.rows[id].lastError) == db.rows[id]
    {
      RowStep(db, e, id);
    }
    forall id | id in after.rows && Under(after.rows[id], queue, key) && Tells(after.rows[id], want)
      ensures Meets(after.rows[id], want) <==> !taken
    {
      assert Under(db.rows[id], queue, key) && Tells(db.rows[id], want);
    }
    if UnderKey(db.rows, queue, key) {
      var id :| id in db.rows && db.rows[id].queue == queue && db.rows[id].key == key;
      assert Under(db.rows[id], queue, key) && id in after.rows && Under(after.rows[id], queue, key);
    }
  }

  /** A batch whose tasks under the key are all as wanted takes it from nobody. */
  lemma {:induction false} StoryBatch(db: Db, subs: seq<Submission>, queue: string, key: Option<string>,
                                      want: Want, taken: bool)
    requires Inv(db) && key.Some? && Story(db, queue, key, want, taken)
    requires forall sub | sub in subs :: sub.key == key ==> Asks(sub, db.now, want)
    ensures Story(InsertAll(db, subs), queue, key, want, taken)
  {
    if subs != [] {
      var front, last := subs[..|subs| - 1], subs[|subs| - 1];
      StoryBatch(db, front, queue, key, want, taken);
      InsertAllRun(db, front);
      assert last in subs;
      StoryInsert(InsertAll(db, front), last, queue, key, want, taken);
    }
  }

  // ----- over runs of many nodes -----

  function FireKey(r: Rule, f: int): Option<string>
    requires Keys.InRange(f)
  {
    Some(Keys.KeyFor(r.id, f))
  }

  /** What the row of fire `f` is to carry: the rule's own columns and, if `timed`, the fire. */
  function WantOf(r: Rule, f: int, timed: bool): Want {
    Want(r.handler, r.payload, r.priority, r.maxAttempts, Some(r.id), if timed then Some(f) else None)
  }

  /** A client takes the key of fire `f` for a task of its own. */
  ghost predicate Intrudes(w: World, m: Move, f: int, timed: bool)
    requires Keys.InRange(f)
  {
    m.Env? && TakesKey(w.db, m.e, w.rule.queue, FireKey(w.rule, f), WantOf(w.rule, f, timed))
  }

  ghost predicate Intruded(w: World, ms: seq<Move>, f: int, timed: bool)
    requires Moves(w, ms) && Keys.InRange(f)
  {
    ms != [] &&
    (Intruded(w, ms[..|ms| - 1], f, timed) || Intrudes(Moved(w, ms[..|ms| - 1]), ms[|ms| - 1], f, timed))
  }

  ghost predicate FireStory(w: World, f: int, timed: bool, taken: bool)
    requires Keys.InRange(f)
  {
    Story(w.db, w.rule.queue, FireKey(w.rule, f), WantOf(w.rule, f, timed), taken)
  }

  /** The rule is sound, and passes carry fires of its calendar only. */
  ghost predicate PassesSound(w: World) {
    w.rule.Valid() && w.rule.calendar.Some? &&
    forall p | p in w.passes :: AllInRange(w.passes[p].fires) && WholeSeconds(w.passes[p].fires)
  }

  lemma SoundMove(w: World, m: Move)
    requires PassesSound(w) && Can(w, m)
    ensures PassesSound(Do(w, m))
  {
    if m.Read? {
      PlanWholeSeconds(Calendar(w), Seed(w.rule.lastMaterializedAt, m.now), m.now + m.horizon);
      PlanContiguous(Calendar(w), Seed(w.rule.lastMaterializedAt, m.now), m.now + m.horizon);
    }
  }

  lemma AllAsk(r: Rule, fires: seq<int>, f: int, now: int, timed: bool)
    requires r.Valid() && AllInRange(fires) && WholeSeconds(fires) && Keys.InRange(f) && f % Retry.SECOND == 0
    ensures forall sub | sub in TasksFor(r, fires) :: sub.key == FireKey(r, f) ==> Asks(sub, now, WantOf(r, f, timed))
  {
    var subs := TasksFor(r, fires);
    forall i | 0 <= i < |fires| && subs[i].key == FireKey(r, f) ensures Asks(subs[i], now, WantOf(r, f, timed)) {
      assert subs[i] == TaskFor(r, fires[i]) && fires[i] in fires;
      Keys.KeyInjective(r.id, fires[i], r.id, f);
    }
  }

  /** Advances and switches leave what the tasks of a rule are made from alone. */
  lemma SameWant(w: World, m: Move, f: int, timed: bool)
    requires Can(w, m)
    ensures Do(w, m).rule.queue == w.rule.queue && Do(w, m).rule.id == w.rule.id
    ensures WantOf(Do(w, m).rule, f, timed) == WantOf(w.rule, f, timed)
  {
  }

  lemma StoryMove(w: World, m: Move, f: int, timed: bool, taken: bool)
    requires Keys.InRange(f) && f % Retry.SECOND == 0 && Inv(w.db) && PassesSound(w) && Can(w, m)
    requires FireStory(w, f, timed, taken)
    ensures Inv(Do(w, m).db) && FireStory(Do(w, m), f, timed, taken || Intrudes(w, m, f, timed))
  {
    SameWant(w, m, f, timed);
    var key, want := FireKey(w.rule, f), WantOf(w.rule, f, timed);
    match m {
      case Env(e) =>
        InvStep(w.db, e);
        if e.Insert? {
          StoryInsert(w.db, e.sub, w.rule.queue, key, want, taken);
        } else {
          StoryUpdate(w.db, e, w.rule.queue, key, want, taken);
        }
      case Submit(p) =>
        InsertAllRun(w.db, TasksFor(w.rule, w.passes[p].fires));
        AllAsk(w.rule, w.passes[p].fires, f, w.db.now, timed);
        StoryBatch(w.db, TasksFor(w.rule, w.passes[p].fires), w.rule.queue, key, want, taken);
      case _ =>
    }
  }

  lemma {:induction false} StoryRun(w: World, ms: seq<Move>, f: int, timed: bool)
    requires Keys.InRange(f) && f % Retry.SECOND == 0 && Inv(w.db) && PassesSound(w) && Moves(w, ms)
    requires !UnderKey(w.db.rows, w.rule.queue, FireKey(w.rule, f))
    ensures Inv(Moved(w, ms).db) && PassesSound(Moved(w, ms))
    ensures Moved(w, ms).rule.id == w.rule.id && Moved(w, ms).rule.queue == w.rule.queue
    ensures WantOf(Moved(w, ms).rule, f, timed) == WantOf(w.rule, f, timed)
    ensures FireStory(Moved(w, ms), f, timed, Intruded(w, ms, f, timed))
  {
    if ms != [] {
      var front, m := ms[..|ms| - 1], ms[|ms| - 1];
      StoryRun(w, front, f, timed);
      SoundMove(Moved(w, front), m);
      SameWant(Moved(w, front), m, f, timed);
      StoryMove(Moved(w, front), m, f, timed, Intruded(w, front, f, timed));
    }
  }

  /** Whose row it is. In every run over a schedule, punctual or not, the one row under the key of
      a fire carries the rule's handler, payload, priority, attempt limit and id if and only if
      no client enqueued another task under that key first; and as long as it has not been
      claimed, its run time is the fire as well if and only if no client took the key for
      another task or time. */
  lemma RowIsTheRulesIff(w: World, ms: seq<Move>, f: int, id: int)
    requires Keys.InRange(f) && f % Retry.SECOND == 0 && Inv(w.db) && PassesSound(w) && Moves(w, ms)
    requires !UnderKey(w.db.rows, w.rule.queue, FireKey(w.rule, f))
    requires OnlyRow(Moved(w, ms), f, id)
    ensures var t, r := Moved(w, ms).db.rows[id], w.rule;
            var rules := t.handler == r.handler && t.payload == r.payload && t.priority == r.priority &&
                         t.maxAttempts == r.maxAttempts && t.scheduleId == Some(r.id);
            (rules <==> !Intruded(w, ms, f, false)) &&
            (t.attempts == 0 ==> (rules && t.runAt == f <==> !Intruded(w, ms, f, true)))
  {
    StoryRun(w, ms, f, false);
    StoryRun(w, ms, f, true);
    assert Under(Moved(w, ms).db.rows[id], w.rule.queue, FireKey(w.rule, f));
  }
}
