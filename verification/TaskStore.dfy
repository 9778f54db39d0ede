// The Postgres store: one method per store call, changing the table in place.
module TaskStore {
  import opened Wrappers
  import opened Tasks
  import opened Effects

  datatype Outcome = Done | ClaimLost | NotFound | NotCancellable | StatementFailed

  datatype EnqueueResult =
    | Created(task: Task)
    | DuplicateKey(task: Task)
    | Refused

  datatype BulkResult = Stored(tasks: seq<Task>) | Aborted(at: nat)

  function Ids(tasks: seq<Task>): (ids: seq<int>)
    ensures |ids| == |tasks|
  {
    seq(|tasks|, i requires 0 <= i < |tasks| => tasks[i].id)
  }

  // ----- what enqueueing returns -----

  ghost function Holder(rows: Rows, queue: string, key: Option<string>): (id: int)
    requires KeyTaken(rows, queue, key)
    ensures id in rows && HoldsKey(rows[id], queue, key)
  {
    var id :| id in rows && HoldsKey(rows[id], queue, key);
    id
  }

  lemma OneHolder(rows: Rows, id: int, queue: string, key: Option<string>)
    requires UniqueKeys(rows) && id in rows && HoldsKey(rows[id], queue, key)
    ensures KeyTaken(rows, queue, key) && Holder(rows, queue, key) == id
  {
    var holder := Holder(rows, queue, key);
    assert HoldsKey(rows[holder], rows[id].queue, rows[id].key);
  }

  /** The task one Enqueue call hands back: the new row, or the row already under the key. */
  ghost function EnqueueTask(db: Db, sub: Submission): Task
    requires Acceptable(sub)
  {
    if Inserts(db, sub) then NewTask(sub, db.nextId, db.now)
    else db.rows[Holder(db.rows, sub.queue, sub.key)]
  }

  /** Enqueueing one by one, in order, at one database time. */
  ghost function InsertAll(db: Db, subs: seq<Submission>): Db {
    if subs == [] then db else Inserted(InsertAll(db, subs[..|subs| - 1]), subs[|subs| - 1])
  }

  ghost predicate AllAcceptable(subs: seq<Submission>) {
    forall sub | sub in subs :: Acceptable(sub)
  }

  lemma AcceptableSnoc(subs: seq<Submission>, i: nat)
    requires i < |subs| && AllAcceptable(subs[..i])
    ensures if Acceptable(subs[i]) then AllAcceptable(subs[..i + 1]) else !AllAcceptable(subs)
  {
    assert subs[..i + 1] == subs[..i] + [subs[i]] && subs[i] in subs;
  }

  ghost function EnqueueEach(db: Db, subs: seq<Submission>): (tasks: seq<Task>)
    requires AllAcceptable(subs)
    ensures |tasks| == |subs|
  {
    if subs == [] then [] else
    var front := subs[..|subs| - 1];
    EnqueueEach(db, front) + [EnqueueTask(InsertAll(db, front), subs[|subs| - 1])]
  }

  /** The i-th result of enqueueing one by one. */
  ghost function ResultAt(db: Db, subs: seq<Submission>, i: nat): Task
    requires i < |subs| && Acceptable(subs[i])
  {
    EnqueueTask(InsertAll(db, subs[..i]), subs[i])
  }

  lemma AllResolved(db: Db, subs: seq<Submission>, tasks: seq<Task>)
    requires AllAcceptable(subs) && |tasks| == |subs|
    requires forall j | 0 <= j < |subs| :: tasks[j] == ResultAt(db, subs, j)
    ensures tasks == EnqueueEach(db, subs)
  {
    forall j | 0 <= j < |subs| ensures tasks[j] == EnqueueEach(db, subs)[j] {
      EnqueueEachAt(db, subs, j);
    }
  }

  ghost function Inserting(subs: seq<Submission>): (es: seq<Event>)
    ensures |es| == |subs|
    ensures forall e | e in es :: e.Insert?
  {
    seq(|subs|, i requires 0 <= i < |subs| => Insert(subs[i]))
  }

  lemma InsertAllSnoc(db: Db, subs: seq<Submission>, i: nat)
    requires i < |subs|
    ensures InsertAll(db, subs[..i + 1]) == Inserted(InsertAll(db, subs[..i]), subs[i])
  {
    assert subs[..i + 1][..i] == subs[..i];
  }

  lemma {:induction false} EnqueueEachAt(db: Db, subs: seq<Submission>, i: nat)
    requires AllAcceptable(subs) && i < |subs|
    ensures EnqueueEach(db, subs)[i] == ResultAt(db, subs, i)
    decreases |subs|
  {
    var front := subs[..|subs| - 1];
    if i < |front| {
      EnqueueEachAt(db, front, i);
      assert front[..i] == subs[..i];
    } else {
      assert front == subs[..i];
    }
  }

  /** A batch of inserts is a run of the table: it adds rows and changes none. */
  lemma {:induction false} InsertAllRun(db: Db, subs: seq<Submission>)
    requires Inv(db)
    ensures Run(db, Inserting(subs)) && Exec(db, Inserting(subs)) == InsertAll(db, subs)
    ensures Inv(InsertAll(db, subs))
    ensures InsertAll(db, subs).now == db.now && InsertAll(db, subs).nextId == db.nextId + |subs|
    ensures forall id | id in db.rows :: id in InsertAll(db, subs).rows && InsertAll(db, subs).rows[id] == db.rows[id]
  {
    if subs != [] {
      var front, last := subs[..|subs| - 1], subs[|subs| - 1];
      InsertAllRun(db, front);
      RunPrefix(db, Inserting(front), Insert(last));
      assert Inserting(subs) == Inserting(front) + [Insert(last)];
      InvStep(InsertAll(db, front), Insert(last));
    }
  }

  lemma {:induction false} InsertAllConcat(db: Db, xs: seq<Submission>, ys: seq<Submission>)
    ensures InsertAll(db, xs + ys) == InsertAll(InsertAll(db, xs), ys)
    decreases |ys|
  {
    if ys == [] {
      assert xs + ys == xs;
    } else {
      InsertAllConcat(db, xs, ys[..|ys| - 1]);
      assert (xs + ys)[..|xs + ys| - 1] == xs + ys[..|ys| - 1];
    }
  }

  /** The row resolved for a duplicate at the end of the batch is the one the one-by-one
      call would have returned on the spot, even when the key was first used in the batch. */
  lemma ResolvedLate(db: Db, subs: seq<Submission>, i: nat, id: int)
    requires Inv(db) && i < |subs| && Acceptable(subs[i])
    requires !Inserts(InsertAll(db, subs[..i]), subs[i])
    requires id in InsertAll(db, subs).rows && HoldsKey(InsertAll(db, subs).rows[id], subs[i].queue, subs[i].key)
    ensures InsertAll(db, subs).rows[id] == ResultAt(db, subs, i)
  {
    var mid := InsertAll(db, subs[..i]);
    var end := InsertAll(db, subs);
    assert subs[..i] + subs[i..] == subs;
    InsertAllConcat(db, subs[..i], subs[i..]);
    InsertAllRun(db, subs[..i]);
    InsertAllRun(mid, subs[i..]);
    var holder := Holder(mid.rows, subs[i].queue, subs[i].key);
    assert HoldsKey(end.rows[id], end.rows[holder].queue, end.rows[holder].key);
  }

  /** After the first pass every insert has its row, and exactly the skipped ones, in order,
      are listed as duplicates. */
  ghost predicate FirstPass(db: Db, subs: seq<Submission>, tasks: seq<Option<Task>>, duplicates: seq<nat>)
    requires AllAcceptable(subs)
  {
    && |tasks| == |subs|
    && (forall j | 0 <= j < |subs| :: tasks[j] == FirstResult(db, subs, j))
    && (forall j | 0 <= j < |subs| && tasks[j].None? :: j in duplicates)
    && (forall j | j in duplicates :: j < |subs| && tasks[j].None?)
  }

  ghost function FirstResult(db: Db, subs: seq<Submission>, j: nat): Option<Task>
    requires AllAcceptable(subs) && j < |subs|
  {
    var at := InsertAll(db, subs[..j]);
    if Inserts(at, subs[j]) then Some(NewTask(subs[j], at.nextId, at.now)) else None
  }

  lemma FirstPassSnoc(db: Db, subs: seq<Submission>, i: nat, tasks: seq<Option<Task>>, duplicates: seq<nat>)
    requires i < |subs| && AllAcceptable(subs[..i]) && AllAcceptable(subs[..i + 1])
    requires FirstPass(db, subs[..i], tasks, duplicates)
    ensures FirstPass(db, subs[..i + 1], tasks + [FirstResult(db, subs[..i + 1], i)],
                      if FirstResult(db, subs[..i + 1], i).None? then duplicates + [i] else duplicates)
    ensures FirstResult(db, subs[..i + 1], i) ==
            var at := InsertAll(db, subs[..i]);
            if Inserts(at, subs[i]) then Some(NewTask(subs[i], at.nextId, at.now)) else None
  {
    forall j | 0 <= j < i
      ensures FirstResult(db, subs[..i + 1], j) == FirstResult(db, subs[..i], j)
    {
      assert subs[..i + 1][..j] == subs[..i][..j];
    }
    assert subs[..i + 1][..i] == subs[..i];
  }

  /** A key answers with the same task for ever: after any run, enqueueing under it, alone or
      at any place in any batch, hands back the row it was first bound to. */
  lemma SameAnswer(db: Db, es: seq<Event>, id: int, subs: seq<Submission>, i: nat)
    requires Inv(db) && Run(db, es) && id in db.rows
    requires i < |subs| && AllAcceptable(subs) && HoldsKey(db.rows[id], subs[i].queue, subs[i].key)
    ensures id in Exec(db, es).rows
    ensures EnqueueTask(Exec(db, es), subs[i]) == Exec(db, es).rows[id]
    ensures EnqueueEach(Exec(db, es), subs)[i] == Exec(db, es).rows[id]
  {
    var later := Exec(db, es);
    InvRun(db, es);
    RunGrows(db, es, id);
    OneHolder(later.rows, id, subs[i].queue, subs[i].key);
    InsertAllRun(later, subs[..i]);
    OneHolder(InsertAll(later, subs[..i]).rows, id, subs[i].queue, subs[i].key);
    EnqueueEachAt(later, subs, i);
  }

  /** The table a sweep writes when no row is out of bounds. */
  lemma SweepTable(db: Db, rows: Rows)
    requires Inv(db) && !Errors(db, Recover) && rows.Keys == db.rows.Keys
    requires forall id | id in rows ::
               rows[id] == if db.rows[id].Expired(db.now) then Recovered(db.rows[id], db.now) else db.rows[id]
    ensures db.(rows := rows) == Next(db, Recover)
    ensures forall id | id in rows ::
              if Silent(db.rows[id], db.now) then SweptTo(db.rows[id], rows[id], db.now) else rows[id] == db.rows[id]
    ensures forall id | id in rows :: !rows[id].Expired(db.now)
  {
    UpdatedBy(db, Recover, rows);
    SweepFailsIff(db);
    forall id | id in rows
      ensures if Silent(db.rows[id], db.now) then SweptTo(db.rows[id], rows[id], db.now) else rows[id] == db.rows[id]
    {
      SweepEffect(db, id);
    }
  }

  class Store {
    var rows: Rows
    var nextId: int
    var now: int
    ghost const start: int
    ghost var history: seq<Event>

    function Contents(): Db
      reads this
    {
      Db(rows, nextId, now)
    }

    /** The table is what its statement history makes of the empty table. */
    ghost predicate Valid()
      reads this
    {
      Run(Init(start), history) && Exec(Init(start), history) == Contents()
    }

    constructor (now: int)
      ensures Valid() && Contents() == Init(now) && history == []
    {
      rows, nextId, this.now := map[], 1, now;
      start := now;
      history := [];
    }

    /** The statement `e` has just been applied; append it to the history. */
    ghost method Record(e: Event, before: Db)
      requires Run(Init(start), history) && Exec(Init(start), history) == before
      requires ValidJitter(e) && Enabled(before, e) && Contents() == Next(before, e)
      modifies this`history
      ensures Valid() && history == old(history) + [e]
    {
      RunPrefix(Init(start), history, e);
      history := history + [e];
    }

    lemma Invariant()
      requires Valid()
      ensures Inv(Contents())
    {
      InvRun(Init(start), history);
    }

    method Advance(to: int)
      requires Valid() && now <= to
      modifies this
      ensures Valid() && history == old(history) + [Tick(to)]
      ensures Contents() == Next(old(Contents()), Tick(to))
    {
      ghost var before := Contents();
      now := to;
      Record(Tick(to), before);
    }

    /** A statement by another process, or the passing of time. */
    method Apply(e: Event)
      requires Valid() && ValidJitter(e) && Enabled(Contents(), e)
      modifies this
      ensures Valid() && history == old(history) + [e] && Contents() == Next(old(Contents()), e)
    {
      ghost var before := Contents();
      var after := Next(Contents(), e);
      rows, nextId, now := after.rows, after.nextId, after.now;
      Record(e, before);
    }

    method Get(id: int) returns (found: Option<Task>)
      requires Valid()
      ensures found == if id in rows then Some(rows[id]) else None
    {
      found := if id in rows then Some(rows[id]) else None;
    }

    method FindKey(queue: string, key: Option<string>) returns (found: Option<int>)
      ensures found.Some? <==> KeyTaken(rows, queue, key)
      ensures found.Some? ==> found.value in rows && HoldsKey(rows[found.value], queue, key)
    {
      var left := rows.Keys;
      found := None;
      while exists id :: id in left
        invariant left <= rows.Keys
        invariant forall id | id in rows && id !in left :: !HoldsKey(rows[id], queue, key)
        decreases left
      {
        var id :| id in left;
        if HoldsKey(rows[id], queue, key) {
          return Some(id);
        }
        left := left - {id};
      }
    }

    method Enqueue(sub: Submission) returns (r: EnqueueResult)
      requires Valid()
      modifies this
      ensures Valid() && history == old(history) + [Insert(sub)]
      ensures Contents() == Next(old(Contents()), Insert(sub))
      ensures r.Refused? <==> !Acceptable(sub)
      ensures r.Created? <==> old(Inserts(Contents(), sub))
      ensures Acceptable(sub) ==> !r.Refused? && r.task == old(EnqueueTask(Contents(), sub))
      ensures r.Refused? <==> !Storable(sub)
      ensures r.Created? <==> Storable(sub) && !old(UnderKey(rows, sub.queue, sub.key))
      ensures r.Created? ==> FreshRow(r.task, sub, old(nextId), now) && rows == old(rows)[old(nextId) := r.task]
      ensures !r.Created? ==> rows == old(rows)
      ensures r.DuplicateKey? ==> r.task.queue == sub.queue && r.task.key == sub.key && r.task.key.Some?
      ensures !r.Refused? ==> r.task.id in rows && rows[r.task.id] == r.task
    {
      ghost var before := Contents();
      Invariant();
      KeyMeans(rows, sub.queue, sub.key);
      if !Acceptable(sub) {
        nextId := nextId + 1;
        Record(Insert(sub), before);
        return Refused;
      }
      var holder := FindKey(sub.queue, sub.key);
      if holder.Some? {
        r := DuplicateKey(rows[holder.value]);
        OneHolder(rows, holder.value, sub.queue, sub.key);
      } else {
        r := Created(NewTask(sub, nextId, now));
        rows := rows[nextId := r.task];
      }
      nextId := nextId + 1;
      Record(Insert(sub), before);
    }

    /** One INSERT ... ON CONFLICT DO NOTHING RETURNING: no row when the insert is skipped. */
    method InsertNext(sub: Submission) returns (t: Option<Task>)
      requires Acceptable(sub)
      modifies this`rows, this`nextId
      ensures Contents() == Inserted(old(Contents()), sub)
      ensures t == old(if Inserts(Contents(), sub) then Some(NewTask(sub, nextId, now)) else None)
    {
      var holder := FindKey(sub.queue, sub.key);
      t := None;
      if holder.None? {
        t := Some(NewTask(sub, nextId, now));
        rows := rows[nextId := t.value];
      }
      nextId := nextId + 1;
    }

    /** The first pass: insert in order, noting the index of every skipped insert. */
    method InsertPass(subs: seq<Submission>)
      returns (tasks: seq<Option<Task>>, duplicates: seq<nat>, refused: Option<nat>)
      modifies this`rows, this`nextId
      ensures refused.None? <==> AllAcceptable(subs)
      ensures refused.Some? ==> refused.value < |subs| && !Acceptable(subs[refused.value])
      ensures refused.Some? ==> AllAcceptable(subs[..refused.value])
      ensures refused.Some? ==> nextId == old(nextId) + refused.value + 1
      ensures refused.None? ==>
                Contents() == InsertAll(old(Contents()), subs) && FirstPass(old(Contents()), subs, tasks, duplicates)
    {
      ghost var before := Contents();
      tasks, duplicates, refused := [], [], None;
      var i := 0;
      while i < |subs|
        invariant 0 <= i <= |subs|
        invariant AllAcceptable(subs[..i])
        invariant nextId == before.nextId + i
        invariant Contents() == InsertAll(before, subs[..i])
        invariant FirstPass(before, subs[..i], tasks, duplicates)
      {
        InsertAllSnoc(before, subs, i);
        AcceptableSnoc(subs, i);
        if !Acceptable(subs[i]) {
          nextId := nextId + 1;
          refused := Some(i);
          return;
        }
        var t := InsertNext(subs[i]);
        FirstPassSnoc(before, subs, i, tasks, duplicates);
        tasks := tasks + [t];
        if t.None? {
          duplicates := duplicates + [i];
        }
        i := i + 1;
      }
      assert subs[..i] == subs;
    }

    /** The second pass: re-select the row under the key of every skipped insert. */
    method ResolvePass(ghost before: Db, subs: seq<Submission>, first: seq<Option<Task>>, duplicates: seq<nat>)
      returns (tasks: seq<Task>)
      requires Inv(before) && AllAcceptable(subs)
      requires Contents() == InsertAll(before, subs) && FirstPass(before, subs, first, duplicates)
      ensures tasks == EnqueueEach(before, subs)
    {
      var filled := first;
      var k := 0;
      while k < |duplicates|
        invariant 0 <= k <= |duplicates| && |filled| == |subs|
        invariant forall j | 0 <= j < |subs| && filled[j].Some? :: filled[j].value == ResultAt(before, subs, j)
        invariant forall j | 0 <= j < |subs| && filled[j].None? :: j in duplicates[k..]
      {
        var d := duplicates[k];
        assert d in duplicates;
        assert FirstResult(before, subs, d).None?;
        KeyStaysTaken(before, subs, d);
        var holder := FindKey(subs[d].queue, subs[d].key);
        ResolvedLate(before, subs, d, holder.value);
        filled := filled[d := Some(rows[holder.value])];
        k := k + 1;
      }
      tasks := seq(|filled|, j requires 0 <= j < |filled| => filled[j].value);
      AllResolved(before, subs, tasks);
    }

    /** One transaction: insert everything, then resolve the skipped inserts. The result and
        the table are those of enqueueing one by one; a refused item undoes the whole batch. */
    method EnqueueBulk(subs: seq<Submission>) returns (r: BulkResult)
      requires Valid()
      modifies this
      ensures Valid()
      ensures r.Stored? <==> AllAcceptable(subs)
      ensures AllAcceptable(subs) ==> (
        Contents() == InsertAll(old(Contents()), subs) &&
        history == old(history) + Inserting(subs) &&
        r.tasks == EnqueueEach(old(Contents()), subs))
      ensures r.Aborted? ==> (
        rows == old(rows) && now == old(now) &&
        r.at < |subs| && !Acceptable(subs[r.at]) && AllAcceptable(subs[..r.at]))
    {
      ghost var before := Contents();
      Invariant();
      if subs == [] {
        assert history + Inserting(subs) == history;
        return Stored([]);
      }
      var saved := rows;
      var first, duplicates, refused := InsertPass(subs);
      if refused.Some? {
        rows := saved;
        Record(Rollback(refused.value + 1), before);
        return Aborted(refused.value);
      }
      var tasks := ResolvePass(before, subs, first, duplicates);
      InsertAllRun(before, subs);
      RunConcat(Init(start), history, Inserting(subs));
      history := history + Inserting(subs);
      r := Stored(tasks);
    }

    // ----- claiming -----

    /** The best candidate left: nothing in the pool outranks it. */
    method PickBest(pool: set<int>) returns (best: int)
      requires pool <= rows.Keys && exists id :: id in pool
      ensures best in pool
      ensures forall id | id in pool :: !Outranks(rows[id], rows[best])
    {
      best :| best in pool;
      var left := pool - {best};
      while exists id :: id in left
        invariant left <= pool && best in pool
        invariant forall id | id in pool && id !in left :: !Outranks(rows[id], rows[best])
        decreases left
      {
        var id :| id in left;
        if Outranks(rows[id], rows[best]) {
          best := id;
        }
        left := left - {id};
      }
    }

    method Select(queue: string, limit: nat) returns (picked: seq<int>)
      ensures IsSelection(rows, queue, now, limit, {}, picked)
      ensures TakesBest(rows, queue, now, limit, {}, picked)
    {
      var pool := set id | id in rows && Candidate(rows, queue, now, id);
      picked := [];
      while |picked| < limit && exists id :: id in pool
        invariant |picked| <= limit && Distinct(picked)
        invariant forall i | 0 <= i < |picked| :: Candidate(rows, queue, now, picked[i]) && picked[i] !in pool
        invariant forall id :: Candidate(rows, queue, now, id) <==> id in pool || id in picked
        invariant forall i, j | 0 <= i < j < |picked| :: !Outranks(rows[picked[j]], rows[picked[i]])
        invariant forall i, id | 0 <= i < |picked| && id in pool :: !Outranks(rows[id], rows[picked[i]])
        decreases pool
      {
        var best := PickBest(pool);
        pool := pool - {best};
        picked := picked + [best];
      }
      SelectionTakesBest(rows, queue, now, limit, {}, picked);
    }

    /** The outer UPDATE over the selected ids, returning the rows in their order. */
    method ClaimRows(picked: seq<int>, worker: string) returns (claimed: seq<Task>)
      requires Distinct(picked) && forall i | 0 <= i < |picked| :: picked[i] in rows
      modifies this`rows
      ensures rows.Keys == old(rows.Keys) && |claimed| == |picked|
      ensures forall id | id in rows ::
                rows[id] == if id in picked then Claimed(old(rows)[id], worker, now) else old(rows)[id]
      ensures forall i | 0 <= i < |picked| :: claimed[i] == Claimed(old(rows)[picked[i]], worker, now)
    {
      claimed := [];
      var i := 0;
      while i < |picked|
        invariant 0 <= i <= |picked| && |claimed| == i
        invariant rows.Keys == old(rows.Keys)
        invariant forall id | id in rows ::
                    rows[id] == if id in picked[..i] then Claimed(old(rows)[id], worker, now) else old(rows)[id]
        invariant forall j | 0 <= j < i :: claimed[j] == Claimed(old(rows)[picked[j]], worker, now)
      {
        var t := Claimed(rows[picked[i]], worker, now);
        rows := rows[picked[i] := t];
        claimed := claimed + [t];
        assert picked[..i + 1] == picked[..i] + [picked[i]];
        i := i + 1;
      }
      assert picked[..i] == picked;
    }

    method Claim(queue: string, worker: string, limit: nat) returns (claimed: seq<Task>)
      requires Valid()
      modifies this
      ensures Valid() && history == old(history) + [Event.Claim(worker, queue, limit, now, Ids(claimed))]
      ensures Contents() == Next(old(Contents()), Event.Claim(worker, queue, limit, now, Ids(claimed)))
      ensures IsSelection(old(rows), queue, now, limit, {}, Ids(claimed))
      ensures TakesBest(old(rows), queue, now, limit, {}, Ids(claimed))
      ensures rows.Keys == old(rows).Keys && forall id | id in rows ::
                if id in Ids(claimed) then ClaimedTo(old(rows)[id], rows[id], queue, worker, now)
                else rows[id] == old(rows)[id]
      ensures forall t | t in claimed :: t.id in rows && rows[t.id] == t
      ensures forall t | t in claimed :: t.OwnedBy(worker) && t.status == Running && t.attempts <= t.maxAttempts
    {
      ghost var before := Contents();
      Invariant();
      var picked := Select(queue, limit);
      forall i | 0 <= i < |picked| ensures picked[i] in rows && rows[picked[i]].id == picked[i] {
        assert Candidate(rows, queue, now, picked[i]);
      }
      claimed := ClaimRows(picked, worker);
      assert Ids(claimed) == picked;
      UpdatedBy(before, Event.Claim(worker, queue, limit, now, picked), rows);
      forall id | id in rows
        ensures if id in picked then ClaimedTo(before.rows[id], rows[id], queue, worker, now)
                else rows[id] == before.rows[id]
      {
        ClaimEffect(before, Event.Claim(worker, queue, limit, now, picked), id);
      }
      Record(Event.Claim(worker, queue, limit, now, picked), before);
    }

    // ----- the worker's other statements -----

    method Complete(id: int, worker: string) returns (r: Outcome)
      requires Valid()
      modifies this
      ensures Valid() && history == old(history) + [Event.Complete(worker, id)]
      ensures Contents() == Next(old(Contents()), Event.Complete(worker, id))
      ensures r == if old(id in rows && rows[id].OwnedBy(worker)) then Done else ClaimLost
      ensures r == ClaimLost ==> rows == old(rows)
      ensures r == Done ==> old(rows[id].status) == Running && rows[id].status == Succeeded
      ensures rows.Keys == old(rows).Keys && forall i | i in rows ::
                if i == id && old(rows)[i].claimedBy == Some(worker) then CompletedTo(old(rows)[i], rows[i], worker)
                else rows[i] == old(rows)[i]
    {
      ghost var before := Contents();
      Invariant();
      if id in rows && rows[id].OwnedBy(worker) {
        rows := rows[id := Completed(rows[id])];
        r := Done;
      } else {
        r := ClaimLost;
      }
      UpdatedBy(before, Event.Complete(worker, id), rows);
      forall i | i in rows
        ensures if i == id && before.rows[i].claimedBy == Some(worker) then CompletedTo(before.rows[i], rows[i], worker)
                else rows[i] == before.rows[i]
      {
        CompleteEffect(before, worker, id, i);
      }
      Record(Event.Complete(worker, id), before);
    }

    method Fail(id: int, worker: string, message: string, jitter: real) returns (r: Outcome)
      requires Valid() && 0.0 <= jitter < 1.0
      modifies this
      ensures Valid() && history == old(history) + [Event.Fail(worker, id, jitter, message)]
      ensures Contents() == Next(old(Contents()), Event.Fail(worker, id, jitter, message))
      ensures r == ClaimLost <==> !old(id in rows && rows[id].OwnedBy(worker))
      ensures r == StatementFailed <==> old(id in rows && rows[id].OwnedBy(worker) && rows[id].Overflows())
      ensures r != Done ==> rows == old(rows)
      ensures r == Done ==> (
        old(rows[id].status) == Running && rows[id].attempts == old(rows[id].attempts) &&
        rows[id].status == if rows[id].attempts < rows[id].maxAttempts then Pending else Dead)
      ensures r == StatementFailed <==>
              old(id in rows && rows[id].claimedBy == Some(worker) && Unbounded(rows[id]))
      ensures r == Done ==> rows.Keys == old(rows).Keys && forall i | i in rows ::
                if i == id then FailedTo(old(rows)[i], rows[i], worker, message, jitter, now)
                else rows[i] == old(rows)[i]
    {
      ghost var before := Contents();
      Invariant();
      if id !in rows || !rows[id].OwnedBy(worker) {
        r := ClaimLost;
      } else if rows[id].Overflows() {
        r := StatementFailed;
        assert Matches(rows[id], Event.Fail(worker, id, jitter, message), now);
      } else {
        rows := rows[id := Released(rows[id], now, jitter, message)];
        r := Done;
      }
      UpdatedBy(before, Event.Fail(worker, id, jitter, message), rows);
      if r == Done {
        forall i | i in rows
          ensures if i == id then FailedTo(before.rows[i], rows[i], worker, message, jitter, now)
                  else rows[i] == before.rows[i]
        {
          FailEffect(before, worker, id, jitter, message, i);
        }
      }
      Record(Event.Fail(worker, id, jitter, message), before);
    }

    method Heartbeat(ids: seq<int>, worker: string) returns (refreshed: nat)
      requires Valid()
      modifies this
      ensures Valid() && history == old(history) + [Event.Heartbeat(worker, ids)]
      ensures Contents() == Next(old(Contents()), Event.Heartbeat(worker, ids))
      ensures refreshed == old(|set id | id in rows && rows[id].BeatBy(worker, ids)|)
      ensures rows.Keys == old(rows).Keys && forall id | id in rows ::
                if id in ids && old(rows)[id].claimedBy == Some(worker)
                then BeatTo(old(rows)[id], rows[id], worker, now)
                else rows[id] == old(rows)[id]
    {
      ghost var before := Contents();
      Invariant();
      if |ids| == 0 {
        assert (set id | id in rows && rows[id].BeatBy(worker, ids)) == {};
        refreshed := 0;
      } else {
        var hit := set id | id in rows && rows[id].BeatBy(worker, ids);
        rows := map id | id in rows :: if id in hit then rows[id].(heartbeatAt := Some(now)) else rows[id];
        refreshed := |hit|;
      }
      UpdatedBy(before, Event.Heartbeat(worker, ids), rows);
      forall id | id in rows
        ensures if id in ids && before.rows[id].claimedBy == Some(worker)
                then BeatTo(before.rows[id], rows[id], worker, now)
                else rows[id] == before.rows[id]
      {
        HeartbeatEffect(before, worker, ids, id);
      }
      Record(Event.Heartbeat(worker, ids), before);
    }

    // ----- administration -----

    method Cancel(id: int) returns (r: Outcome)
      requires Valid()
      modifies this
      ensures Valid() && history == old(history) + [Event.Cancel(id)]
      ensures Contents() == Next(old(Contents()), Event.Cancel(id))
      ensures r == old(if id !in rows then NotFound else if rows[id].status == Pending then Done else NotCancellable)
      ensures r != Done ==> rows == old(rows)
      ensures r == Done ==> rows == old(rows[id := rows[id].(status := Cancelled)])
    {
      ghost var before := Contents();
      Invariant();
      if id in rows && rows[id].status == Pending {
        rows := rows[id := rows[id].(status := Cancelled)];
        r := Done;
      } else {
        var found := Get(id);
        r := if found.None? then NotFound else NotCancellable;
      }
      UpdatedBy(before, Event.Cancel(id), rows);
      Record(Event.Cancel(id), before);
    }

    /** One statement over the whole table: all expired rows are recovered, or, when one of
        them overflows, none is. */
    method RecoverOrphans() returns (r: Outcome, recovered: nat)
      requires Valid()
      modifies this
      ensures Valid() && history == old(history) + [Event.Recover]
      ensures Contents() == Next(old(Contents()), Event.Recover)
      ensures r == StatementFailed <==> old(exists id | id in rows :: rows[id].Expired(now) && rows[id].Overflows())
      ensures r == StatementFailed ==> rows == old(rows) && recovered == 0
      ensures r != StatementFailed ==> (
        r == Done && recovered == old(|set id | id in rows && rows[id].Expired(now)|) &&
        forall id | id in rows :: !rows[id].Expired(now))
      ensures r == StatementFailed <==> old(exists id | id in rows :: Silent(rows[id], now) && Unbounded(rows[id]))
      ensures r != StatementFailed ==> (
        rows.Keys == old(rows).Keys && forall id | id in rows ::
          if Silent(old(rows)[id], now) then SweptTo(old(rows)[id], rows[id], now) else rows[id] == old(rows)[id])
    {
      ghost var before := Contents();
      Invariant();
      SweepFailsIff(before);
      if exists id | id in rows :: rows[id].Expired(now) && rows[id].Overflows() {
        assert forall id | id in rows :: Matches(rows[id], Event.Recover, now) == rows[id].Expired(now);
        Record(Event.Recover, before);
        return StatementFailed, 0;
      }
      var hit := set id | id in rows && rows[id].Expired(now);
      rows := map id | id in rows :: if id in hit then Recovered(rows[id], now) else rows[id];
      r, recovered := Done, |hit|;
      SweepTable(before, rows);
      Record(Event.Recover, before);
    }
  }

  lemma KeyStaysTaken(db: Db, subs: seq<Submission>, i: nat)
    requires Inv(db) && i < |subs| && Acceptable(subs[i])
    requires !Inserts(InsertAll(db, subs[..i]), subs[i])
    ensures KeyTaken(InsertAll(db, subs).rows, subs[i].queue, subs[i].key)
  {
    var mid := InsertAll(db, subs[..i]);
    assert subs[..i] + subs[i..] == subs;
    InsertAllConcat(db, subs[..i], subs[i..]);
    InsertAllRun(db, subs[..i]);
    InsertAllRun(mid, subs[i..]);
    var holder := Holder(mid.rows, subs[i].queue, subs[i].key);
    assert HoldsKey(InsertAll(db, subs).rows[holder], subs[i].queue, subs[i].key);
  }
}
