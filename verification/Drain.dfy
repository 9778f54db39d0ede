// Liveness of recovery: even if every claimer crashes, every task ends terminal,
// provided that no task can outgrow the backoff expression.
module Drain {
  import opened Wrappers
  import opened Retry
  import opened Tasks
  import opened History
  import TaskStore

  // ----- the total budget of a table -----

  ghost function TotalBudget(rows: Rows, ids: set<int>): int
    requires ids <= rows.Keys
  {
    if exists id :: id in ids then
      var id :| id in ids;
      Budget(rows[id]) + TotalBudget(rows, ids - {id})
    else 0
  }

  lemma {:induction false} TotalBudgetRemove(rows: Rows, ids: set<int>, id: int)
    requires ids <= rows.Keys && id in ids
    ensures TotalBudget(rows, ids) == Budget(rows[id]) + TotalBudget(rows, ids - {id})
    decreases ids
  {
    var first :| first in ids && TotalBudget(rows, ids) == Budget(rows[first]) + TotalBudget(rows, ids - {first});
    if first != id {
      TotalBudgetRemove(rows, ids - {first}, id);
      TotalBudgetRemove(rows, ids - {id}, first);
      assert ids - {first} - {id} == ids - {id} - {first};
    }
  }

  /** Budgets that shrink row by row shrink in total, strictly where one row does. */
  lemma {:induction false} TotalBudgetShrinks(before: Rows, after: Rows, ids: set<int>, id: int)
    requires ids <= before.Keys && ids <= after.Keys
    requires forall i | i in ids :: 0 <= Budget(after[i]) <= Budget(before[i])
    ensures 0 <= TotalBudget(after, ids) <= TotalBudget(before, ids)
    ensures id in ids && Budget(after[id]) < Budget(before[id]) ==>
              TotalBudget(after, ids) < TotalBudget(before, ids)
    decreases ids
  {
    if exists i :: i in ids {
      var i :| i in ids;
      TotalBudgetRemove(before, ids, i);
      TotalBudgetRemove(after, ids, i);
      TotalBudgetShrinks(before, after, ids - {i}, id);
    }
  }

  // ----- the sweep and its one failure -----

  /** Every open task has an attempt limit small enough for the backoff to be computed; the
      HTTP layer admits at most 100. */
  predicate Bounded(rows: Rows) {
    forall id | id in rows && !rows[id].status.Terminal() :: rows[id].maxAttempts <= MAX_EXPONENT + 1
  }

  lemma BoundedNeverErrs(db: Db, e: Event)
    requires Inv(db) && Bounded(db.rows)
    ensures !Errors(db, e)
  {
  }

  /** A sweep leaves no expired row behind if and only if no expired row overflows. */
  lemma SweepCompleteIff(db: Db)
    requires Inv(db)
    ensures (forall id | id in db.rows :: !Next(db, Recover).rows[id].Expired(db.now)) <==>
            (forall id | id in db.rows :: !(db.rows[id].Expired(db.now) && db.rows[id].Overflows()))
  {
    forall id | id in db.rows ensures Matches(db.rows[id], Recover, db.now) == db.rows[id].Expired(db.now) {
      RowStep(db, Recover, id);
    }
  }

  /** One abandoned row that overflows blocks the sweeper for good: in every continuation in
      which its owner stays silent the row is unchanged and every sweep fails, so no
      abandoned task anywhere in the table is recovered again. */
  lemma {:induction false} PoisonBlocksSweeper(db: Db, es: seq<Event>, id: int)
    requires Inv(db) && Run(db, es)
    requires id in db.rows && db.rows[id].Expired(db.now) && db.rows[id].Overflows()
    requires forall e | e in es :: !(e.Heartbeat? && db.rows[id].OwnedBy(e.worker))
    requires forall e | e in es :: !(e.Complete? && db.rows[id].OwnedBy(e.worker))
    ensures id in Exec(db, es).rows && Exec(db, es).rows[id] == db.rows[id]
    ensures Next(Exec(db, es), Recover) == Exec(db, es)
  {
    if es != [] {
      var front, e := es[..|es| - 1], es[|es| - 1];
      PoisonBlocksSweeper(db, front, id);
      RunGrows(db, front, id);
      InvRun(db, front);
      RowStep(Exec(db, front), e, id);
      assert e in es;
    }
    RunGrows(db, es, id);
    assert Matches(Exec(db, es).rows[id], Recover, Exec(db, es).now);
  }

  /** The first task of a table, after k failed attempts without any delay. */
  function Tried(t0: int, sub: Submission, k: nat): Task
    requires Acceptable(sub)
  {
    NewTask(sub, 1, t0).(attempts := k, lastError := if k == 0 then None else Some(""))
  }

  /** Any number of attempts the backoff can still be computed for can fail in a row. */
  lemma {:induction false} FailedAttempts(t0: int, sub: Submission, w: string, k: nat) returns (es: seq<Event>)
    requires Acceptable(sub) && sub.runAt == None && k <= MAX_EXPONENT && k < Tried(t0, sub, 0).maxAttempts
    ensures Run(Init(t0), es) && Exec(Init(t0), es) == Db(map[1 := Tried(t0, sub, k)], 2, t0)
    decreases k
  {
    if k == 0 {
      RunPrefix(Init(t0), [], Insert(sub));
      es := [] + [Insert(sub)];
      assert Exec(Init(t0), es).rows == map[1 := Tried(t0, sub, 0)];
    } else {
      es := FailedAttempts(t0, sub, w, k - 1);
      es := OneMoreFailure(t0, sub, w, k, es);
    }
  }

  lemma OneMoreFailure(t0: int, sub: Submission, w: string, k: nat, xs: seq<Event>) returns (es: seq<Event>)
    requires Acceptable(sub) && sub.runAt == None && 0 < k <= MAX_EXPONENT && k < Tried(t0, sub, 0).maxAttempts
    requires Run(Init(t0), xs) && Exec(Init(t0), xs) == Db(map[1 := Tried(t0, sub, k - 1)], 2, t0)
    ensures Run(Init(t0), es) && Exec(Init(t0), es) == Db(map[1 := Tried(t0, sub, k)], 2, t0)
  {
    es := ClaimAgain(t0, sub, w, k - 1, xs);
    var claimed := Claimed(Tried(t0, sub, k - 1), w, t0);
    var fail := Fail(w, 1, 0.0, "");
    RunPrefix(Init(t0), es, fail);
    assert !claimed.Overflows();
    assert Released(claimed, t0, 0.0, "") == Tried(t0, sub, k);
    UpdatedBy(Exec(Init(t0), es), fail, map[1 := Tried(t0, sub, k)]);
    es := es + [fail];
  }

  lemma ClaimAgain(t0: int, sub: Submission, w: string, k: nat, xs: seq<Event>) returns (es: seq<Event>)
    requires Acceptable(sub) && sub.runAt == None
    requires Run(Init(t0), xs) && Exec(Init(t0), xs) == Db(map[1 := Tried(t0, sub, k)], 2, t0)
    ensures Run(Init(t0), es)
    ensures Exec(Init(t0), es) == Db(map[1 := Claimed(Tried(t0, sub, k), w, t0)], 2, t0)
  {
    var claim := Claim(w, sub.queue, 1, t0, [1]);
    RunPrefix(Init(t0), xs, claim);
    UpdatedBy(Exec(Init(t0), xs), claim, map[1 := Claimed(Tried(t0, sub, k), w, t0)]);
    es := xs + [claim];
  }

  /** A second task is enqueued, claimed by the same worker, and the worker falls silent. */
  lemma NeighbourAbandoned(t0: int, other: Submission, w: string, poison: Task, xs: seq<Event>) returns (es: seq<Event>)
    requires Acceptable(other) && other.runAt == None && Run(Init(t0), xs)
    requires Exec(Init(t0), xs) == Db(map[1 := poison], 2, t0) && !HoldsKey(poison, other.queue, other.key)
    requires poison.id == 1
    ensures Run(Init(t0), es)
    ensures Exec(Init(t0), es) ==
            Db(map[1 := poison, 2 := Claimed(NewTask(other, 2, t0), w, t0)], 3, t0 + 91 * SECOND)
  {
    var insert, claim, tick := Insert(other), Claim(w, other.queue, 1, t0, [2]), Tick(t0 + 91 * SECOND);
    RunPrefix(Init(t0), xs, insert);
    es := xs + [insert];
    assert Exec(Init(t0), es) == Db(map[1 := poison, 2 := NewTask(other, 2, t0)], 3, t0);
    RunPrefix(Init(t0), es, claim);
    UpdatedBy(Exec(Init(t0), es), claim, map[1 := poison, 2 := Claimed(NewTask(other, 2, t0), w, t0)]);
    es := es + [claim];
    RunPrefix(Init(t0), es, tick);
    es := es + [tick];
  }

  /** The blocked state is reached: from the empty table, a task with a limit above 1022 that has
      failed 1021 times is claimed once more, next to any other task under another key, and
      their worker falls silent. Every sweep from then on leaves the innocent neighbour
      abandoned. */
  lemma PoisonExample(t0: int, sub: Submission, other: Submission, w: string) returns (es: seq<Event>)
    requires Acceptable(sub) && sub.runAt == None && sub.maxAttempts > MAX_EXPONENT + 1
    requires Acceptable(other) && other.runAt == None
    requires other.key.None? || other.queue != sub.queue || other.key != sub.key
    ensures Run(Init(t0), es)
    ensures var db := Exec(Init(t0), es);
            db.rows.Keys == {1, 2} && db.rows[1].Expired(db.now) && db.rows[1].Overflows() &&
            db.rows[2].Expired(db.now) && !db.rows[2].Overflows() &&
            SameIdentity(db.rows[2], NewTask(other, 2, t0)) && Next(db, Recover) == db
  {
    es := FailedAttempts(t0, sub, w, MAX_EXPONENT);
    es := ClaimAgain(t0, sub, w, MAX_EXPONENT, es);
    es := NeighbourAbandoned(t0, other, w, Claimed(Tried(t0, sub, MAX_EXPONENT), w, t0), es);
    var db := Exec(Init(t0), es);
    assert Matches(db.rows[1], Recover, db.now);
  }

  // ----- the crash loop -----

  /** No row waits for a later instant than `to`: pending rows are due and running rows expired. */
  predicate PastAll(rows: Rows, to: int) {
    forall id | id in rows ::
      rows[id].runAt <= to && (rows[id].heartbeatAt.Some? ==> rows[id].heartbeatAt.value < to - HEARTBEAT_TTL)
  }

  method FarEnough(store: TaskStore.Store) returns (to: int)
    ensures store.now <= to && PastAll(store.rows, to)
  {
    to := store.now;
    var left := store.rows.Keys;
    while exists id :: id in left
      invariant left <= store.rows.Keys && store.now <= to
      invariant forall id | id in store.rows && id !in left ::
                  store.rows[id].runAt <= to &&
                  (store.rows[id].heartbeatAt.Some? ==> store.rows[id].heartbeatAt.value < to - HEARTBEAT_TTL)
      decreases left
    {
      var id :| id in left;
      left := left - {id};
      var t := store.rows[id];
      if t.runAt > to {
        to := t.runAt;
      }
      if t.heartbeatAt.Some? && t.heartbeatAt.value >= to - HEARTBEAT_TTL {
        to := t.heartbeatAt.value + HEARTBEAT_TTL + 1;
      }
    }
  }

  /** What a round of crashing keeps of a task: a terminal one is untouched, any other is
      on its way to dead. */
  ghost predicate CrashedFrom(t: Task, u: Task) {
    if t.status.Terminal() then u == t
    else SameIdentity(t, u) && (u.status == Pending || u.status == Running || u.status == Dead)
  }

  lemma CrashStep(db: Db, e: Event)
    requires Inv(db) && ValidJitter(e) && Enabled(db, e)
    requires e.Tick? || e.Recover? || e.Claim?
    ensures forall id | id in db.rows :: id in Next(db, e).rows && CrashedFrom(db.rows[id], Next(db, e).rows[id])
    ensures forall id | id in db.rows :: 0 <= Budget(Next(db, e).rows[id]) <= Budget(db.rows[id])
    ensures Next(db, e).rows.Keys == db.rows.Keys
    ensures Inv(Next(db, e))
  {
    forall id | id in db.rows
      ensures id in Next(db, e).rows && CrashedFrom(db.rows[id], Next(db, e).rows[id])
      ensures 0 <= Budget(Next(db, e).rows[id]) <= Budget(db.rows[id])
    {
      RowStep(db, e, id);
      BudgetStep(db, e, id);
    }
    InvStep(db, e);
  }

  /** The table only moved towards dead, and its total budget did not grow. */
  ghost predicate Crashing(before: Rows, after: Rows) {
    && before.Keys == after.Keys
    && (forall i | i in before :: CrashedFrom(before[i], after[i]))
    && 0 <= TotalBudget(after, after.Keys) <= TotalBudget(before, before.Keys)
  }

  lemma CrashingStep(db: Db, e: Event, id: int)
    requires Inv(db) && ValidJitter(e) && Enabled(db, e)
    requires e.Tick? || e.Recover? || e.Claim?
    requires id in db.rows
    ensures Crashing(db.rows, Next(db, e).rows)
    ensures LetterOf(db, e, id).Some? ==>
              TotalBudget(Next(db, e).rows, db.rows.Keys) < TotalBudget(db.rows, db.rows.Keys)
  {
    CrashStep(db, e);
    BudgetStep(db, e, id);
    TotalBudgetShrinks(db.rows, Next(db, e).rows, db.rows.Keys, id);
  }

  /** Everything comes due or expires, and the sweeper runs: a running task is recovered,
      a pending one may now be claimed. */
  method SweepRound(store: TaskStore.Store, id: int)
    requires store.Valid() && Bounded(store.rows)
    requires id in store.rows && !store.rows[id].status.Terminal()
    modifies store
    ensures store.Valid() && Crashing(old(store.rows), store.rows)
    ensures store.rows[id].Due(store.now) ||
            TotalBudget(store.rows, store.rows.Keys) < old(TotalBudget(store.rows, store.rows.Keys))
  {
    ghost var db0 := store.Contents();
    store.Invariant();
    var to := FarEnough(store);
    store.Advance(to);
    ghost var db1 := store.Contents();
    CrashingStep(db0, Tick(to), id);
    RowStep(db0, Tick(to), id);
    store.Invariant();
    BoundedNeverErrs(db1, Recover);
    RowStep(db1, Recover, id);
    var outcome, recovered := store.RecoverOrphans();
    CrashingStep(db1, Recover, id);
  }

  /** A worker claims from the queue of a due task and crashes at once. */
  method ClaimRound(store: TaskStore.Store, worker: string, id: int)
    requires store.Valid() && id in store.rows && store.rows[id].Due(store.now)
    modifies store
    ensures store.Valid() && Crashing(old(store.rows), store.rows)
    ensures TotalBudget(store.rows, store.rows.Keys) < old(TotalBudget(store.rows, store.rows.Keys))
  {
    ghost var db := store.Contents();
    ghost var queue := store.rows[id].queue;
    store.Invariant();
    var claimed := store.Claim(store.rows[id].queue, worker, 1);
    ghost var e := Event.Claim(worker, queue, 1, db.now, TaskStore.Ids(claimed));
    assert Candidate(db.rows, queue, db.now, id);
    ghost var taken := if id in e.picked then id else e.picked[0];
    assert taken in e.picked && Candidate(db.rows, queue, db.now, taken);
    CrashingStep(db, e, taken);
  }

  /** One round of sweeping, claiming and crashing: the total budget strictly shrinks. */
  method CrashRound(store: TaskStore.Store, worker: string, id: int)
    requires store.Valid() && Bounded(store.rows)
    requires id in store.rows && !store.rows[id].status.Terminal()
    modifies store
    ensures store.Valid() && Crashing(old(store.rows), store.rows)
    ensures TotalBudget(store.rows, store.rows.Keys) < old(TotalBudget(store.rows, store.rows.Keys))
  {
    SweepRound(store, id);
    if store.rows[id].Due(store.now) {
      ClaimRound(store, worker, id);
    }
  }

  method FindOpen(store: TaskStore.Store) returns (open: Option<int>)
    ensures open.Some? ==> open.value in store.rows && !store.rows[open.value].status.Terminal()
    ensures open.None? ==> forall id | id in store.rows :: store.rows[id].status.Terminal()
  {
    open := None;
    var left := store.rows.Keys;
    while exists id :: id in left
      invariant left <= store.rows.Keys
      invariant forall id | id in store.rows && id !in left :: store.rows[id].status.Terminal()
      decreases left
    {
      var id :| id in left;
      left := left - {id};
      if !store.rows[id].status.Terminal() {
        return Some(id);
      }
    }
  }

  /** The loop terminates, whatever the table: no task is recycled for ever. Tasks that were
      terminal are untouched and all the others end dead. */
  method DrainByCrashing(store: TaskStore.Store, worker: string)
    requires store.Valid() && Bounded(store.rows)
    modifies store
    ensures store.Valid() && store.rows.Keys == old(store.rows.Keys)
    ensures forall id | id in store.rows ::
              if old(store.rows)[id].status.Terminal() then store.rows[id] == old(store.rows)[id]
              else store.rows[id].status == Dead && store.rows[id].attempts == old(store.rows)[id].maxAttempts
  {
    ghost var rows := store.rows;
    store.Invariant();
    var open := FindOpen(store);
    while open.Some?
      invariant store.Valid() && store.rows.Keys == rows.Keys
      invariant forall id | id in rows :: CrashedFrom(rows[id], store.rows[id])
      invariant open.Some? ==> open.value in store.rows && !store.rows[open.value].status.Terminal()
      invariant open.None? ==> forall id | id in store.rows :: store.rows[id].status.Terminal()
      decreases TotalBudget(store.rows, store.rows.Keys)
    {
      assert Bounded(store.rows) by {
        assert forall id | id in store.rows.Keys :: CrashedFrom(rows[id], store.rows[id]);
      }
      CrashRound(store, worker, open.value);
      open := FindOpen(store);
    }
    store.Invariant();
  }
}
