// Expanding a recurring schedule into tasks: planning, inserting and advancing the watermark.
module Materializer {
  import opened Wrappers
  import opened Retry
  import opened Tasks
  import opened Effects
  import opened TaskStore
  import Cron
  import Keys

  const MAX_PLANNED: nat := 10000

  /** A row of the schedules table. calendar is the parsed cron expression in its zone, or
      None when either fails to load. */
  datatype Rule = Rule(
    id: int,
    queue: string,
    handler: string,
    payload: string,
    priority: int,
    maxAttempts: int,
    enabled: bool,
    lastMaterializedAt: Option<int>,
    calendar: Option<Cron.Schedule>)
  {
    /** The constraints of the schedules table, and fires in the years 0 to 9999. */
    ghost predicate Valid() {
      queue != "" && handler != "" && maxAttempts > 0 &&
      (calendar.Some? ==> calendar.value.Valid() && forall f | f in calendar.value.fires :: Keys.InRange(f))
    }
  }

  // ----- Plan -----

  /** The longest prefix that does not pass `until`. */
  function UpTo(xs: seq<int>, until: int): seq<int> {
    if xs == [] || xs[0] > until then [] else [xs[0]] + UpTo(xs[1..], until)
  }

  lemma {:induction false} UpToHolds(xs: seq<int>, until: int)
    ensures var ys := UpTo(xs, until);
            |ys| <= |xs| && ys == xs[..|ys|] &&
            (forall i | 0 <= i < |ys| :: ys[i] <= until) &&
            (|ys| < |xs| ==> xs[|ys|] > until)
  {
    if xs != [] && xs[0] <= until {
      UpToHolds(xs[1..], until);
      var rest := UpTo(xs[1..], until);
      assert forall i | 0 <= i < |rest| :: rest[i] == xs[i + 1];
    }
  }

  function Seed(last: Option<int>, now: int): int {
    if last.Some? then last.value else now
  }

  function PlanFrom(c: Cron.Schedule, seed: int, until: int): seq<int> {
    UpTo(Cron.Take(Cron.Owed(c, seed), MAX_PLANNED), until)
  }

  /** The candidates are clamped, then cut at the horizon by a loop with a break. */
  method Plan(r: Rule, now: int, horizon: int) returns (planned: Option<seq<int>>)
    requires r.Valid()
    ensures planned == if r.calendar.None? then None
                       else Some(PlanFrom(r.calendar.value, Seed(r.lastMaterializedAt, now), now + horizon))
  {
    if r.calendar.None? {
      return None;
    }
    var after := now;
    if r.lastMaterializedAt.Some? {
      after := r.lastMaterializedAt.value;
    }
    var until := now + horizon;
    var candidates := Cron.NextN(r.calendar.value, after, MAX_PLANNED);
    var out := CutAt(candidates, until);
    return Some(out);
  }

  /** The loop that stops at the first candidate behind the horizon. */
  method CutAt(candidates: seq<int>, until: int) returns (planned: seq<int>)
    ensures planned == UpTo(candidates, until)
  {
    planned := [];
    var i := 0;
    while i < |candidates|
      invariant 0 <= i <= |candidates|
      invariant planned == candidates[..i]
      invariant forall k | 0 <= k < i :: candidates[k] <= until
    {
      if candidates[i] > until {
        break;
      }
      planned := planned + [candidates[i]];
      i := i + 1;
    }
    UpToUnique(candidates, until, planned);
  }

  lemma UpToUnique(xs: seq<int>, until: int, ys: seq<int>)
    requires |ys| <= |xs| && ys == xs[..|ys|]
    requires forall k | 0 <= k < |ys| :: xs[k] <= until
    requires |ys| < |xs| ==> xs[|ys|] > until
    ensures UpTo(xs, until) == ys
  {
    UpToHolds(xs, until);
    var zs := UpTo(xs, until);
    assert forall i | 0 <= i < |zs| :: zs[i] == xs[i];
  }

  /** Clamping before cutting is the same as cutting before clamping: a plan is the full run
      of owed fires up to the horizon, or its first 10000. */
  lemma PlanIsFullRun(c: Cron.Schedule, seed: int, until: int)
    ensures var due := UpTo(Cron.Owed(c, seed), until);
            PlanFrom(c, seed, until) == (if |due| <= 10000 then due else due[..10000]) &&
            PlanFrom(c, seed, until) == Cron.Take(due, MAX_PLANNED)
  {
    var owed := Cron.Owed(c, seed);
    var due := UpTo(owed, until);
    UpToHolds(owed, until);
    var ys := Cron.Take(due, MAX_PLANNED);
    assert forall k | 0 <= k < |due| :: due[k] == owed[k];
    UpToUnique(Cron.Take(owed, MAX_PLANNED), until, ys);
  }

  /** The fires are exactly the accepted ones in the half-open interval (start, last]. */
  ghost predicate Contiguous(c: Cron.Schedule, start: int, fires: seq<int>) {
    fires != [] &&
    forall f :: f in fires <==> Cron.Accepted(c, f) && start < f <= fires[|fires| - 1]
  }

  lemma PlanContiguous(c: Cron.Schedule, seed: int, until: int)
    requires c.Valid() && PlanFrom(c, seed, until) != []
    ensures Contiguous(c, Cron.StartOf(c, seed), PlanFrom(c, seed, until))
    ensures PlanFrom(c, seed, until)[|PlanFrom(c, seed, until)| - 1] <= until
  {
    var owed, fires := Cron.Owed(c, seed), PlanFrom(c, seed, until);
    Cron.OwedSpec(c, seed);
    UpToHolds(Cron.Take(owed, MAX_PLANNED), until);
    assert forall k | 0 <= k < |fires| :: fires[k] == owed[k];
    forall f ensures f in fires <==> Cron.Accepted(c, f) && Cron.StartOf(c, seed) < f <= fires[|fires| - 1] {
      if f in fires {
        var k :| 0 <= k < |fires| && fires[k] == f;
        assert owed[k] in owed;
      } else if Cron.Accepted(c, f) && Cron.StartOf(c, seed) < f {
        assert f in owed;
        var k :| 0 <= k < |owed| && owed[k] == f;
        assert k >= |fires|;
        assert owed[|fires| - 1] < owed[k];
      }
    }
  }

  lemma PlanWholeSeconds(c: Cron.Schedule, seed: int, until: int)
    requires c.Valid() && PlanFrom(c, seed, until) != []
    ensures WholeSeconds(PlanFrom(c, seed, until))
  {
    PlanContiguous(c, seed, until);
    forall f | f in PlanFrom(c, seed, until) ensures f % SECOND == 0 {
      assert Cron.Accepted(c, f);
      Cron.CanonicalAccepted(c, f);
    }
  }

  // ----- Materialize -----

  function TaskFor(r: Rule, t: int): Submission
    requires Keys.InRange(t)
  {
    Submission(r.queue, r.handler, Some(r.payload), r.priority, Some(t), r.maxAttempts,
               Some(Keys.KeyFor(r.id, t)), Some(r.id))
  }

  predicate AllInRange(fires: seq<int>) {
    forall f | f in fires :: Keys.InRange(f)
  }

  function TasksFor(r: Rule, fires: seq<int>): (subs: seq<Submission>)
    requires AllInRange(fires)
    ensures |subs| == |fires|
  {
    seq(|fires|, i requires 0 <= i < |fires| => TaskFor(r, fires[i]))
  }

  /** The row a fire time is materialized as. */
  predicate Materialized(db: Db, r: Rule, f: int)
    requires Keys.InRange(f)
  {
    KeyTaken(db.rows, r.queue, Some(Keys.KeyFor(r.id, f)))
  }

  lemma TasksAcceptable(r: Rule, fires: seq<int>)
    requires r.Valid() && AllInRange(fires)
    ensures AllAcceptable(TasksFor(r, fires))
  {
  }

  lemma InsertTakesKey(db: Db, sub: Submission)
    requires Acceptable(sub) && sub.key.Some?
    ensures KeyTaken(Inserted(db, sub).rows, sub.queue, sub.key)
  {
    if Inserts(db, sub) {
      assert HoldsKey(Inserted(db, sub).rows[db.nextId], sub.queue, sub.key);
    }
  }

  lemma {:induction false} BatchTakesKeys(db: Db, subs: seq<Submission>, i: nat)
    requires Inv(db) && AllAcceptable(subs) && i < |subs| && subs[i].key.Some?
    ensures KeyTaken(InsertAll(db, subs).rows, subs[i].queue, subs[i].key)
  {
    var front, last := subs[..|subs| - 1], subs[|subs| - 1];
    InsertAllRun(db, front);
    if i == |front| {
      InsertTakesKey(InsertAll(db, front), last);
    } else {
      BatchTakesKeys(db, front, i);
      KeyStays(InsertAll(db, front), Insert(last), subs[i].queue, subs[i].key);
    }
  }

  /** After the batch every fire has a row under its key, new or old. */
  lemma InsertMaterializes(db: Db, r: Rule, fires: seq<int>, f: int)
    requires Inv(db) && r.Valid() && AllInRange(fires) && f in fires
    ensures Materialized(InsertAll(db, TasksFor(r, fires)), r, f)
  {
    TasksAcceptable(r, fires);
    var i :| 0 <= i < |fires| && fires[i] == f;
    BatchTakesKeys(db, TasksFor(r, fires), i);
  }

  /** The row a rule is to leave behind for a fire: the rule's own columns, at the fire's time. */
  predicate RowOfFire(t: Task, r: Rule, f: int)
    requires Keys.InRange(f)
  {
    t.queue == r.queue && t.key == Some(Keys.KeyFor(r.id, f)) && t.handler == r.handler && t.payload == r.payload &&
    t.priority == r.priority && t.maxAttempts == r.maxAttempts && t.scheduleId == Some(r.id) &&
    t.runAt == f && t.status == Pending && t.attempts == 0
  }

  predicate WholeSeconds(fires: seq<int>) {
    forall f | f in fires :: f % SECOND == 0
  }

  /** A row after a batch was there before, or is made from one of the batch. */
  lemma {:induction false} FromBatch(db: Db, subs: seq<Submission>, id: int)
    requires Inv(db) && id in InsertAll(db, subs).rows
    ensures (id in db.rows && InsertAll(db, subs).rows[id] == db.rows[id]) ||
            exists i :: 0 <= i < |subs| && FreshRow(InsertAll(db, subs).rows[id], subs[i], id, db.now)
  {
    if subs != [] {
      var front, last := subs[..|subs| - 1], subs[|subs| - 1];
      var mid := InsertAll(db, front);
      InsertAllRun(db, front);
      InsertEffect(mid, last);
      if id in mid.rows {
        FromBatch(db, front, id);
      }
    }
  }

  /** What a fire whose key was free is materialized as. */
  lemma FireRow(db: Db, r: Rule, fires: seq<int>, f: int, id: int)
    requires Inv(db) && r.Valid() && AllInRange(fires) && WholeSeconds(fires) && f in fires
    requires !UnderKey(db.rows, r.queue, Some(Keys.KeyFor(r.id, f)))
    requires id in InsertAll(db, TasksFor(r, fires)).rows
    requires InsertAll(db, TasksFor(r, fires)).rows[id].queue == r.queue
    requires InsertAll(db, TasksFor(r, fires)).rows[id].key == Some(Keys.KeyFor(r.id, f))
    ensures RowOfFire(InsertAll(db, TasksFor(r, fires)).rows[id], r, f)
  {
    var subs := TasksFor(r, fires);
    var t := InsertAll(db, subs).rows[id];
    FromBatch(db, subs, id);
    var i :| 0 <= i < |subs| && FreshRow(t, subs[i], id, db.now);
    assert subs[i] == TaskFor(r, fires[i]) && fires[i] in fires;
    Keys.KeyInjective(r.id, fires[i], r.id, f);
  }

  /** A pass leaves exactly one row for each of its fires, and where the key was free before, it
      carries the rule. */
  ghost predicate FiresStand(before: Rows, after: Rows, r: Rule, fires: seq<int>)
    requires AllInRange(fires)
  {
    forall f | f in fires ::
      UnderKey(after, r.queue, Some(Keys.KeyFor(r.id, f))) &&
      (!UnderKey(before, r.queue, Some(Keys.KeyFor(r.id, f))) ==>
         forall id | id in after && after[id].queue == r.queue && after[id].key == Some(Keys.KeyFor(r.id, f)) ::
           RowOfFire(after[id], r, f))
  }

  lemma FiresStandAfter(db: Db, r: Rule, fires: seq<int>)
    requires Inv(db) && r.Valid() && AllInRange(fires) && WholeSeconds(fires)
    ensures FiresStand(db.rows, InsertAll(db, TasksFor(r, fires)).rows, r, fires)
  {
    var after := InsertAll(db, TasksFor(r, fires)).rows;
    forall f | f in fires
      ensures UnderKey(after, r.queue, Some(Keys.KeyFor(r.id, f)))
      ensures !UnderKey(db.rows, r.queue, Some(Keys.KeyFor(r.id, f))) ==>
                forall id | id in after && after[id].queue == r.queue && after[id].key == Some(Keys.KeyFor(r.id, f)) ::
                  RowOfFire(after[id], r, f)
    {
      InsertMaterializes(db, r, fires, f);
      KeyMeans(after, r.queue, Some(Keys.KeyFor(r.id, f)));
      if !UnderKey(db.rows, r.queue, Some(Keys.KeyFor(r.id, f))) {
        forall id | id in after && after[id].queue == r.queue && after[id].key == Some(Keys.KeyFor(r.id, f))
          ensures RowOfFire(after[id], r, f)
        {
          FireRow(db, r, fires, f, id);
        }
      }
    }
  }

  /** A key once taken stays taken. */
  lemma KeyStays(db: Db, e: Event, queue: string, key: Option<string>)
    requires Inv(db) && ValidJitter(e) && Enabled(db, e) && KeyTaken(db.rows, queue, key)
    ensures KeyTaken(Next(db, e).rows, queue, key)
  {
    var id :| id in db.rows && HoldsKey(db.rows[id], queue, key);
    RowStep(db, e, id);
    assert HoldsKey(Next(db, e).rows[id], queue, key);
  }

  lemma SliceSnoc<T>(all: seq<T>, i: nat, x: T)
    requires i < |all| && all[i] == x
    ensures all[..i] + [x] == all[..i + 1]
  {
  }

  method BuildTasks(r: Rule, fires: seq<int>) returns (subs: seq<Submission>)
    requires AllInRange(fires)
    ensures subs == TasksFor(r, fires)
  {
    ghost var all := TasksFor(r, fires);
    subs := [];
    var i := 0;
    while i < |fires|
      invariant 0 <= i <= |fires|
      invariant subs == all[..i]
    {
      assert fires[i] in fires;
      var task := TaskFor(r, fires[i]);
      SliceSnoc(all, i, task);
      subs := subs + [task];
      i := i + 1;
    }
  }

  /** Materialize: one keyed task per fire time, in one transaction. */
  method Materialize(store: Store, r: Rule, fires: seq<int>) returns (result: BulkResult)
    requires store.Valid() && r.Valid() && AllInRange(fires)
    modifies store
    ensures store.Valid() && result.Stored?
    ensures store.Contents() == InsertAll(old(store.Contents()), TasksFor(r, fires))
    ensures forall f | f in fires :: Materialized(store.Contents(), r, f)
    ensures WholeSeconds(fires) ==> FiresStand(old(store.rows), store.rows, r, fires)
  {
    ghost var before := store.Contents();
    store.Invariant();
    TasksAcceptable(r, fires);
    var subs := BuildTasks(r, fires);
    result := store.EnqueueBulk(subs);
    if WholeSeconds(fires) {
      FiresStandAfter(before, r, fires);
    }
    forall f | f in fires ensures Materialized(store.Contents(), r, f) {
      InsertMaterializes(before, r, fires, f);
    }
  }

  // ----- the schedules table and the run loop -----

  /** The guarded advance: the watermark only ever moves forward. */
  function Advanced(last: Option<int>, at: int): Option<int> {
    if last.None? || last.value < at then Some(at) else last
  }

  /** What an undisturbed pass makes of a rule. */
  function AfterPass(r: Rule, now: int, horizon: int): Rule {
    var fires := PassPlan(r, now, horizon);
    if fires == [] then r
    else r.(lastMaterializedAt := Advanced(r.lastMaterializedAt, fires[|fires| - 1]))
  }

  /** The fires an undisturbed pass inserts. */
  function PassPlan(r: Rule, now: int, horizon: int): seq<int> {
    if !r.enabled || r.calendar.None? then []
    else PlanFrom(r.calendar.value, Seed(r.lastMaterializedAt, now), now + horizon)
  }

  lemma PassPlanInRange(r: Rule, now: int, horizon: int)
    requires r.Valid()
    ensures AllInRange(PassPlan(r, now, horizon))
  {
    var fires := PassPlan(r, now, horizon);
    if fires != [] {
      PlanContiguous(r.calendar.value, Seed(r.lastMaterializedAt, now), now + horizon);
    }
  }

  /** What an undisturbed pass over a rule makes of the task table. */
  ghost function TableAfterPass(db: Db, r: Rule, now: int, horizon: int): Db
    requires r.Valid()
  {
    PassPlanInRange(r, now, horizon);
    InsertAll(db, TasksFor(r, PassPlan(r, now, horizon)))
  }

  /** And what one pass over each of the rules does, in order. */
  ghost function TableAfterAll(db: Db, rules: seq<Rule>, now: int, horizon: int): Db
    requires forall i | 0 <= i < |rules| :: rules[i].Valid()
  {
    if rules == [] then db else
    TableAfterPass(TableAfterAll(db, rules[..|rules| - 1], now, horizon), rules[|rules| - 1], now, horizon)
  }

  lemma TableAfterSnoc(db: Db, rules: seq<Rule>, i: nat, now: int, horizon: int)
    requires i < |rules| && forall k | 0 <= k < |rules| :: rules[k].Valid()
    ensures TableAfterAll(db, rules[..i + 1], now, horizon) ==
            TableAfterPass(TableAfterAll(db, rules[..i], now, horizon), rules[i], now, horizon)
  {
    assert rules[..i + 1][..i] == rules[..i];
  }

  class Schedules {
    var rules: seq<Rule>

    ghost predicate Valid()
      reads this
    {
      (forall i | 0 <= i < |rules| :: rules[i].Valid()) &&
      forall i, j | 0 <= i < j < |rules| :: rules[i].id < rules[j].id
    }

    constructor (rules: seq<Rule>)
      requires forall i | 0 <= i < |rules| :: rules[i].Valid()
      requires forall i, j | 0 <= i < j < |rules| :: rules[i].id < rules[j].id
      ensures Valid() && this.rules == rules
    {
      this.rules := rules;
    }

    method SetEnabled(id: int, enabled: bool) returns (found: bool)
      requires Valid()
      modifies this
      ensures Valid() && |rules| == old(|rules|)
      ensures found <==> exists i :: 0 <= i < |rules| && rules[i].id == id
      ensures forall i | 0 <= i < |rules| ::
                rules[i] == if old(rules)[i].id == id then old(rules)[i].(enabled := enabled) else old(rules)[i]
    {
      found := false;
      var i := 0;
      while i < |rules|
        invariant 0 <= i <= |rules| == old(|rules|)
        invariant forall k | 0 <= k < |rules| ::
                    rules[k] == if k < i && old(rules)[k].id == id
                                then old(rules)[k].(enabled := enabled) else old(rules)[k]
        invariant found <==> exists k :: 0 <= k < i && rules[k].id == id
      {
        if rules[i].id == id {
          rules := rules[i := rules[i].(enabled := enabled)];
          found := true;
        }
        i := i + 1;
      }
    }

    method AdvanceLastMaterializedAt(id: int, at: int)
      requires Valid()
      modifies this
      ensures Valid() && |rules| == old(|rules|)
      ensures forall i | 0 <= i < |rules| ::
                rules[i] == if old(rules)[i].id == id
                            then old(rules)[i].(lastMaterializedAt := Advanced(old(rules)[i].lastMaterializedAt, at))
                            else old(rules)[i]
    {
      var i := 0;
      while i < |rules|
        invariant 0 <= i <= |rules| == old(|rules|)
        invariant forall k | 0 <= k < |rules| ::
                    rules[k] == if k < i && old(rules)[k].id == id then
                      old(rules)[k].(lastMaterializedAt := Advanced(old(rules)[k].lastMaterializedAt, at))
                                else old(rules)[k]
      {
        if rules[i].id == id && (rules[i].lastMaterializedAt.None? || rules[i].lastMaterializedAt.value < at) {
          rules := rules[i := rules[i].(lastMaterializedAt := Some(at))];
        }
        i := i + 1;
      }
    }

    /** materializeOne: plan, insert, and advance only once the insert has succeeded. */
    method MaterializeOne(store: Store, i: nat, now: int, horizon: int)
      requires Valid() && store.Valid() && i < |rules| && rules[i].enabled
      modifies this, store
      ensures Valid() && store.Valid() && |rules| == old(|rules|)
      ensures rules[i] == AfterPass(old(rules)[i], now, horizon)
      ensures old(rules)[i].Valid()
      ensures store.Contents() == TableAfterPass(old(store.Contents()), old(rules)[i], now, horizon)
      ensures AllInRange(PassPlan(old(rules)[i], now, horizon)) &&
              FiresStand(old(store.rows), store.rows, old(rules)[i], PassPlan(old(rules)[i], now, horizon))
      ensures forall k | 0 <= k < |rules| && k != i :: rules[k] == old(rules)[k]
      ensures rules[i].lastMaterializedAt != old(rules)[i].lastMaterializedAt ==> (
        rules[i].lastMaterializedAt.Some? && rules[i].calendar.Some? &&
        var c := rules[i].calendar.value;
        var start := Cron.StartOf(c, Seed(old(rules)[i].lastMaterializedAt, now));
        forall f | Cron.Accepted(c, f) && start < f <= rules[i].lastMaterializedAt.value ::
          Keys.InRange(f) && Materialized(store.Contents(), rules[i], f))
    {
      var r := rules[i];
      var planned := Plan(r, now, horizon);
      if planned.None? || planned.value == [] {
        return;
      }
      var fires := planned.value;
      PlanContiguous(r.calendar.value, Seed(r.lastMaterializedAt, now), now + horizon);
      assert AllInRange(fires);
      PlanWholeSeconds(r.calendar.value, Seed(r.lastMaterializedAt, now), now + horizon);
      var result := Materialize(store, r, fires);
      AdvanceLastMaterializedAt(r.id, fires[|fires| - 1]);
    }

    /** RunOnce: every enabled rule gets its pass, whatever happens to the others; a disabled
        rule and a rule that does not load are left as they are. */
    method RunOnce(store: Store, now: int, horizon: int)
      requires Valid() && store.Valid()
      modifies this, store
      ensures Valid() && store.Valid() && |rules| == old(|rules|)
      ensures forall i | 0 <= i < |rules| :: rules[i] == AfterPass(old(rules)[i], now, horizon)
      ensures forall i | 0 <= i < |old(rules)| :: old(rules)[i].Valid()
      ensures store.Contents() == TableAfterAll(old(store.Contents()), old(rules), now, horizon)
    {
      var i := 0;
      while i < |rules|
        invariant 0 <= i <= |rules| == old(|rules|)
        invariant Valid() && store.Valid()
        invariant store.Contents() == TableAfterAll(old(store.Contents()), old(rules)[..i], now, horizon)
        invariant forall k | 0 <= k < |rules| ::
                    rules[k] == if k < i then AfterPass(old(rules)[k], now, horizon) else old(rules)[k]
      {
        TableAfterSnoc(old(store.Contents()), old(rules), i, now, horizon);
        if rules[i].enabled {
          MaterializeOne(store, i, now, horizon);
        }
        i := i + 1;
      }
      assert old(rules)[..i] == old(rules);
    }

    /** n passes over one rule, at a fixed clock reading. */
    method Repeat(store: Store, i: nat, now: int, horizon: int, n: nat)
      requires Valid() && store.Valid() && i < |rules| && rules[i].enabled
      modifies this, store
      ensures Valid() && store.Valid() && |rules| == old(|rules|)
      ensures old(rules)[i].Valid()
      ensures store.Contents() == TableAfter(old(store.Contents()), old(rules)[i], now, horizon, n)
      ensures rules[i] == RuleAfter(old(rules)[i], now, horizon, n)
      ensures forall k | 0 <= k < |rules| && k != i :: rules[k] == old(rules)[k]
    {
      var j := 0;
      while j < n
        invariant 0 <= j <= n && Valid() && store.Valid() && |rules| == old(|rules|) && rules[i].enabled
        invariant rules[i].Valid()
        invariant TableAfter(store.Contents(), rules[i], now, horizon, n - j) ==
                  TableAfter(old(store.Contents()), old(rules)[i], now, horizon, n)
        invariant RuleAfter(rules[i], now, horizon, n - j) == RuleAfter(old(rules)[i], now, horizon, n)
        invariant forall k | 0 <= k < |rules| && k != i :: rules[k] == old(rules)[k]
      {
        MaterializeOne(store, i, now, horizon);
        j := j + 1;
      }
    }
  }

  // ----- clamped catch-up -----

  /** The rule after n undisturbed passes at a fixed clock reading. */
  function RuleAfter(r: Rule, now: int, horizon: int, n: nat): Rule
    decreases n
  {
    if n == 0 then r else RuleAfter(AfterPass(r, now, horizon), now, horizon, n - 1)
  }

  /** And the task table. */
  ghost function TableAfter(db: Db, r: Rule, now: int, horizon: int, n: nat): Db
    requires r.Valid()
    decreases n
  {
    if n == 0 then db
    else TableAfter(TableAfterPass(db, r, now, horizon), AfterPass(r, now, horizon), now, horizon, n - 1)
  }

  function CeilDiv(k: nat, c: nat): nat
    requires c >= 1
    decreases k
  {
    if k == 0 then 0 else if k <= c then 1 else 1 + CeilDiv(k - c, c)
  }

  lemma {:induction false} CeilDivIsCeiling(k: nat, c: nat)
    requires c >= 1
    ensures c * (CeilDiv(k, c) - 1) < k <= c * CeilDiv(k, c) || (k == 0 && CeilDiv(k, c) == 0)
    decreases k
  {
    if k > c {
      CeilDivIsCeiling(k - c, c);
      assert c * (CeilDiv(k - c, c) + 1) == c * CeilDiv(k - c, c) + c;
    }
  }

  lemma UpToRest(xs: seq<int>, until: int, k: nat)
    requires k <= |UpTo(xs, until)|
    ensures k <= |xs| && UpTo(xs[k..], until) == UpTo(xs, until)[k..]
  {
    UpToHolds(xs, until);
    var due := UpTo(xs, until);
    assert forall i | 0 <= i < |due| - k :: xs[k..][i] == due[k + i];
    UpToUnique(xs[k..], until, due[k..]);
  }

  /** An enabled rule that loads and has a watermark. */
  predicate Underway(r: Rule) {
    r.enabled && r.calendar.Some? && r.lastMaterializedAt.Some?
  }

  function Due(r: Rule, now: int, horizon: int): seq<int>
    requires Underway(r)
  {
    UpTo(Cron.Owed(r.calendar.value, r.lastMaterializedAt.value), now + horizon)
  }

  ghost predicate OnTrack(r: Rule) {
    Underway(r) && r.calendar.value.Valid() && Cron.Canonical(r.calendar.value, r.lastMaterializedAt.value)
  }

  /** One plan is the first 10000 due fires, and leaves the others due behind its last one. */
  lemma PlanShrinks(c: Cron.Schedule, mark: int, until: int, due: seq<int>, plan: seq<int>)
    requires c.Valid() && Cron.Canonical(c, mark)
    requires due == UpTo(Cron.Owed(c, mark), until) && plan == Cron.Take(due, MAX_PLANNED)
    ensures PlanFrom(c, mark, until) == plan && due == plan + due[|plan|..]
    ensures plan != [] ==> (
              plan[|plan| - 1] > mark && Cron.Canonical(c, plan[|plan| - 1]) &&
              UpTo(Cron.Owed(c, plan[|plan| - 1]), until) == due[|plan|..])
  {
    PlanIsFullRun(c, mark, until);
    UpToHolds(Cron.Owed(c, mark), until);
    if plan != [] {
      Cron.OwedRest(c, mark, |plan|);
      UpToRest(Cron.Owed(c, mark), until, |plan|);
      Cron.OwedSpec(c, mark);
      assert Cron.Owed(c, mark)[|plan| - 1] in Cron.Owed(c, mark);
    }
  }

  /** The rule once the fires of `due` lie behind its watermark. */
  function Marked(r: Rule, due: seq<int>): Rule {
    if due == [] then r else r.(lastMaterializedAt := Some(due[|due| - 1]))
  }

  /** The same of a pass over the rule. */
  lemma PassShrinks(r: Rule, now: int, horizon: int, due: seq<int>) returns (rest: seq<int>)
    requires OnTrack(r) && due == Due(r, now, horizon)
    ensures due == PassPlan(r, now, horizon) + rest
    ensures OnTrack(AfterPass(r, now, horizon)) && Due(AfterPass(r, now, horizon), now, horizon) == rest
    ensures |PassPlan(r, now, horizon)| == 0 <==> |due| == 0
    ensures Marked(AfterPass(r, now, horizon), rest) == Marked(r, due)
    ensures CeilDiv(|due|, MAX_PLANNED) == if |due| == 0 then 0 else 1 + CeilDiv(|rest|, MAX_PLANNED)
    ensures |due| == 0 ==> AfterPass(r, now, horizon) == r
  {
    var plan := Cron.Take(due, MAX_PLANNED);
    PlanShrinks(r.calendar.value, r.lastMaterializedAt.value, now + horizon, due, plan);
    rest := due[|plan|..];
  }

  /** How many passes with something to insert are left. */
  function PassesLeft(r: Rule, now: int, horizon: int): nat
    requires Underway(r)
  {
    CeilDiv(|Due(r, now, horizon)|, MAX_PLANNED)
  }

  /** Where the watermark will come to stand. */
  function Target(r: Rule, now: int, horizon: int): Rule
    requires Underway(r)
  {
    Marked(r, Due(r, now, horizon))
  }

  lemma NextRule(r: Rule, now: int, horizon: int)
    requires OnTrack(r)
    ensures OnTrack(AfterPass(r, now, horizon))
    ensures |PassPlan(r, now, horizon)| == 0 <==> PassesLeft(r, now, horizon) == 0
    ensures Target(AfterPass(r, now, horizon), now, horizon) == Target(r, now, horizon)
    ensures PassesLeft(AfterPass(r, now, horizon), now, horizon) ==
            if PassesLeft(r, now, horizon) == 0 then 0 else PassesLeft(r, now, horizon) - 1
    ensures PassesLeft(r, now, horizon) == 0 ==> Target(r, now, horizon) == r
  {
    var rest := PassShrinks(r, now, horizon, Due(r, now, horizon));
  }

  /** A rule with k due fires has something to insert in each of ceil(k / 10000) passes; after
      those the watermark stands at the last due fire and nothing is due. */
  lemma {:induction false} RuleCatchesUp(r: Rule, now: int, horizon: int, j: nat)
    requires OnTrack(r)
    ensures OnTrack(RuleAfter(r, now, horizon, j))
    ensures |PassPlan(RuleAfter(r, now, horizon, j), now, horizon)| == 0 <==> j >= PassesLeft(r, now, horizon)
    ensures j >= PassesLeft(r, now, horizon) ==> RuleAfter(r, now, horizon, j) == Target(r, now, horizon)
    decreases j
  {
    NextRule(r, now, horizon);
    if j > 0 {
      RuleCatchesUp(AfterPass(r, now, horizon), now, horizon, j - 1);
    }
  }

  // ----- the same on the table -----

  lemma DueInRange(r: Rule, now: int, horizon: int)
    requires r.Valid() && Underway(r)
    ensures AllInRange(Due(r, now, horizon))
  {
    var c, mark, due := r.calendar.value, r.lastMaterializedAt.value, Due(r, now, horizon);
    Cron.OwedSpec(c, mark);
    UpToHolds(Cron.Owed(c, mark), now + horizon);
    forall f | f in due ensures Keys.InRange(f) {
      var k :| 0 <= k < |due| && due[k] == f;
      assert f == Cron.Owed(c, mark)[k];
      assert Cron.Accepted(c, f);
    }
  }

  /** The tasks of a rule do not depend on its watermark, and come in the order of the fires. */
  lemma TasksForConcat(r: Rule, s: Rule, xs: seq<int>, ys: seq<int>, zs: seq<int>)
    requires AllInRange(xs) && AllInRange(ys) && AllInRange(zs) && zs == xs + ys
    requires s == r.(lastMaterializedAt := s.lastMaterializedAt)
    ensures TasksFor(r, zs) == TasksFor(r, xs) + TasksFor(s, ys)
  {
    var whole, parts := TasksFor(r, zs), TasksFor(r, xs) + TasksFor(s, ys);
    forall i | 0 <= i < |zs| ensures whole[i] == parts[i] {
      var f := if i < |xs| then xs[i] else ys[i - |xs|];
      assert zs[i] == f;
      assert whole[i] == TaskFor(r, f);
      assert parts[i] == TaskFor(r, f);
    }
  }

  lemma InsertsConcat(db: Db, r: Rule, s: Rule, xs: seq<int>, ys: seq<int>, zs: seq<int>)
    requires AllInRange(xs) && AllInRange(ys) && AllInRange(zs) && zs == xs + ys
    requires s == r.(lastMaterializedAt := s.lastMaterializedAt)
    ensures InsertAll(InsertAll(db, TasksFor(r, xs)), TasksFor(s, ys)) == InsertAll(db, TasksFor(r, zs))
  {
    TasksForConcat(r, s, xs, ys, zs);
    InsertAllConcat(db, TasksFor(r, xs), TasksFor(s, ys));
  }

  lemma NothingDue(db: Db, r: Rule, due: seq<int>)
    requires AllInRange(due) && CeilDiv(|due|, MAX_PLANNED) == 0
    ensures InsertAll(db, TasksFor(r, due)) == db
  {
    CeilDivIsCeiling(|due|, MAX_PLANNED);
    assert TasksFor(r, due) == [];
  }

  lemma PartsInRange(xs: seq<int>, ys: seq<int>, zs: seq<int>)
    requires AllInRange(zs) && zs == xs + ys
    ensures AllInRange(xs) && AllInRange(ys)
  {
    assert forall f | f in xs || f in ys :: f in zs;
  }

  /** One pass, and then an insert of the rest, is an insert of everything due. */
  lemma PassThenRest(db: Db, r: Rule, s: Rule, now: int, horizon: int, due: seq<int>, rest: seq<int>)
    requires r.Valid() && s == AfterPass(r, now, horizon)
    requires AllInRange(due) && due == PassPlan(r, now, horizon) + rest
    ensures s.Valid() && AllInRange(rest)
    ensures InsertAll(TableAfterPass(db, r, now, horizon), TasksFor(s, rest)) == InsertAll(db, TasksFor(r, due))
  {
    var plan := PassPlan(r, now, horizon);
    PartsInRange(plan, rest, due);
    InsertsConcat(db, r, s, plan, rest, due);
  }

  /** The table once everything due is inserted at once. */
  ghost function Settled(db: Db, r: Rule, now: int, horizon: int): Db
    requires r.Valid() && Underway(r)
  {
    DueInRange(r, now, horizon);
    InsertAll(db, TasksFor(r, Due(r, now, horizon)))
  }

  /** A pass does not change where the table is going. */
  lemma NextTable(db: Db, r: Rule, now: int, horizon: int)
    requires r.Valid() && OnTrack(r)
    ensures AfterPass(r, now, horizon).Valid() && OnTrack(AfterPass(r, now, horizon))
    ensures Settled(TableAfterPass(db, r, now, horizon), AfterPass(r, now, horizon), now, horizon) ==
            Settled(db, r, now, horizon)
  {
    DueInRange(r, now, horizon);
    var rest := PassShrinks(r, now, horizon, Due(r, now, horizon));
    PassThenRest(db, r, AfterPass(r, now, horizon), now, horizon, Due(r, now, horizon), rest);
  }

  lemma {:induction false} TableCatchesUp(db: Db, r: Rule, now: int, horizon: int, j: nat)
    requires r.Valid() && OnTrack(r)
    ensures RuleAfter(r, now, horizon, j).Valid() && OnTrack(RuleAfter(r, now, horizon, j))
    ensures Settled(TableAfter(db, r, now, horizon, j), RuleAfter(r, now, horizon, j), now, horizon) ==
            Settled(db, r, now, horizon)
    decreases j
  {
    if j > 0 {
      NextTable(db, r, now, horizon);
      TableCatchesUp(TableAfterPass(db, r, now, horizon), AfterPass(r, now, horizon), now, horizon, j - 1);
    }
  }

  lemma SettledIdle(db: Db, r: Rule, now: int, horizon: int)
    requires r.Valid() && OnTrack(r) && |PassPlan(r, now, horizon)| == 0
    ensures Settled(db, r, now, horizon) == db
  {
    NextRule(r, now, horizon);
    NothingDue(db, r, Due(r, now, horizon));
  }

  /** A schedule that fell k fires behind catches up completely in ceil(k / 10000) passes of
      the code, and in no fewer: they leave the task table exactly as one unclamped insert of
      all k fires would, and the watermark at the last of them. Before that every pass has
      something to insert, afterwards none has. */
  lemma CatchUp(db: Db, r: Rule, now: int, horizon: int, j: nat)
    requires r.Valid() && OnTrack(r)
    ensures AllInRange(Due(r, now, horizon))
    ensures |PassPlan(RuleAfter(r, now, horizon, j), now, horizon)| == 0 <==>
            j >= CeilDiv(|Due(r, now, horizon)|, 10000)
    ensures j >= CeilDiv(|Due(r, now, horizon)|, 10000) ==> (
              TableAfter(db, r, now, horizon, j) == InsertAll(db, TasksFor(r, Due(r, now, horizon))) &&
              RuleAfter(r, now, horizon, j) == Marked(r, Due(r, now, horizon)))
  {
    DueInRange(r, now, horizon);
    RuleCatchesUp(r, now, horizon, j);
    if j >= PassesLeft(r, now, horizon) {
      TableCatchesUp(db, r, now, horizon, j);
      SettledIdle(TableAfter(db, r, now, horizon, j), RuleAfter(r, now, horizon, j), now, horizon);
    }
  }
}
