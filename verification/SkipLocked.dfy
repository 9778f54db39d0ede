// FOR UPDATE SKIP LOCKED at the granularity of row locks.
//
// A claim is no longer one step. It takes a snapshot, visits its candidates in rank order,
// skips a row another claim has locked, drops a row that no longer qualifies, locks the
// rest up to the limit, and later commits or aborts. Any number of claims and any other
// statement interleave; a statement waits for a lock on a row it would change.
module SkipLocked {
  import opened Tasks
  import opened Effects

  datatype Scan = Scan(
    worker: string,
    queue: string,
    limit: nat,
    at: int,
    snap: Rows,
    order: seq<int>,
    visited: nat,
    held: seq<int>,
    passed: set<int>)

  /** Open claim transactions over one table. */
  datatype Sys = Sys(db: Db, scans: map<int, Scan>)

  datatype Step =
    | Begin(tx: int, worker: string, queue: string, limit: nat, order: seq<int>)
    | Visit(tx: int)
    | Commit(tx: int)
    | Abort(tx: int)
    | Other(e: Event)

  /** The sorted result of the subquery: every candidate, best first. */
  ghost predicate IsRanking(rows: Rows, queue: string, at: int, order: seq<int>) {
    && Distinct(order)
    && (forall id :: Candidate(rows, queue, at, id) <==> id in order)
    && (forall i | 0 <= i < |order| :: order[i] in rows)
    && (forall i, j | 0 <= i < j < |order| :: !Outranks(rows[order[j]], rows[order[i]]))
  }

  predicate LockedBy(s: Sys, tx: int, id: int) {
    tx in s.scans && id in s.scans[tx].held
  }

  predicate LockedByOther(s: Sys, tx: int, id: int) {
    exists y | y in s.scans :: y != tx && LockedBy(s, y, id)
  }

  /** The atomic claim that the commit of a scan performs. */
  function ClaimOf(scan: Scan): Event {
    Claim(scan.worker, scan.queue, scan.limit, scan.at, scan.held)
  }

  ghost predicate CanStep(s: Sys, step: Step) {
    match step
    case Begin(tx, _, queue, _, order) => tx !in s.scans && IsRanking(s.db.rows, queue, s.db.now, order)
    case Visit(tx) =>
      tx in s.scans && |s.scans[tx].held| < s.scans[tx].limit && s.scans[tx].visited < |s.scans[tx].order|
    case Commit(tx) => tx in s.scans && Finished(s.scans[tx])
    case Abort(tx) => tx in s.scans
    case Other(e) =>
      !e.Claim? && ValidJitter(e) && Enabled(s.db, e) &&
      forall id, tx | id in s.db.rows && LockedBy(s, tx, id) :: !Matches(s.db.rows[id], e, s.db.now)
  }

  predicate Finished(scan: Scan) {
    |scan.held| == scan.limit || scan.visited == |scan.order|
  }

  function VisitNext(s: Sys, tx: int): Scan
    requires tx in s.scans && s.scans[tx].visited < |s.scans[tx].order|
  {
    var scan := s.scans[tx];
    var id := scan.order[scan.visited];
    if LockedByOther(s, tx, id) || !Candidate(s.db.rows, scan.queue, scan.at, id) then
      scan.(visited := scan.visited + 1, passed := scan.passed + {id})
    else
      scan.(visited := scan.visited + 1, held := scan.held + [id])
  }

  ghost function Do(s: Sys, step: Step): Sys
    requires CanStep(s, step)
  {
    match step
    case Begin(tx, worker, queue, limit, order) =>
      s.(scans := s.scans[tx := Scan(worker, queue, limit, s.db.now, s.db.rows, order, 0, [], {})])
    case Visit(tx) => s.(scans := s.scans[tx := VisitNext(s, tx)])
    case Commit(tx) => Sys(Next(s.db, ClaimOf(s.scans[tx])), s.scans - {tx})
    case Abort(tx) => s.(scans := s.scans - {tx})
    case Other(e) => s.(db := Next(s.db, e))
  }

  // ----- the invariant -----

  function Kept(order: seq<int>, passed: set<int>): seq<int> {
    if order == [] then [] else
    var last := order[|order| - 1];
    Kept(order[..|order| - 1], passed) + if last in passed then [] else [last]
  }

  ghost predicate ScanOk(s: Sys, tx: int)
    requires tx in s.scans
  {
    var scan := s.scans[tx];
    && scan.at <= s.db.now
    && IsRanking(scan.snap, scan.queue, scan.at, scan.order)
    && scan.visited <= |scan.order|
    && (forall id | id in scan.passed :: id in scan.order[..scan.visited])
    && scan.held == Kept(scan.order[..scan.visited], scan.passed)
    && |scan.held| <= scan.limit
    && (forall id | id in scan.held :: Candidate(s.db.rows, scan.queue, scan.at, id))
  }

  ghost predicate Exclusive(s: Sys) {
    forall x, y, id | LockedBy(s, x, id) && LockedBy(s, y, id) :: x == y
  }

  ghost predicate SysOk(s: Sys) {
    Inv(s.db) && Exclusive(s) && forall tx | tx in s.scans :: ScanOk(s, tx)
  }

  lemma {:induction false} KeptMember(order: seq<int>, passed: set<int>, id: int)
    ensures id in Kept(order, passed) <==> id in order && id !in passed
  {
    if order != [] {
      var front, last := order[..|order| - 1], order[|order| - 1];
      KeptMember(front, passed, id);
      assert order == front + [last];
    }
  }

  lemma {:induction false} KeptExtra(order: seq<int>, passed: set<int>, id: int)
    requires id !in order
    ensures Kept(order, passed + {id}) == Kept(order, passed)
  {
    if order != [] {
      assert order[|order| - 1] in order;
      assert forall x | x in order[..|order| - 1] :: x in order;
      KeptExtra(order[..|order| - 1], passed, id);
    }
  }

  /** What is kept inherits the order: distinct, and never out of rank. */
  lemma {:induction false} KeptSorted(rows: Rows, order: seq<int>, passed: set<int>)
    requires Distinct(order) && forall i | 0 <= i < |order| :: order[i] in rows
    requires forall i, j | 0 <= i < j < |order| :: !Outranks(rows[order[j]], rows[order[i]])
    ensures Distinct(Kept(order, passed))
    ensures forall i | 0 <= i < |Kept(order, passed)| :: Kept(order, passed)[i] in order
    ensures forall i, j | 0 <= i < j < |Kept(order, passed)| ::
              !Outranks(rows[Kept(order, passed)[j]], rows[Kept(order, passed)[i]])
  {
    if order != [] {
      var front, last := order[..|order| - 1], order[|order| - 1];
      KeptSorted(rows, front, passed);
      assert order == front + [last];
      forall i | 0 <= i < |Kept(front, passed)|
        ensures Kept(front, passed)[i] != last && !Outranks(rows[last], rows[Kept(front, passed)[i]])
      {
        var k :| 0 <= k < |front| && front[k] == Kept(front, passed)[i];
        assert order[k] == front[k];
      }
    }
  }

  lemma HeldDistinct(s: Sys, tx: int)
    requires tx in s.scans && ScanOk(s, tx)
    ensures Distinct(s.scans[tx].held)
  {
    var scan := s.scans[tx];
    KeptSorted(scan.snap, scan.order[..scan.visited], scan.passed);
  }

  // ----- every step keeps it -----

  /** A step changes no row that stays locked: until its own claim commits, a locked row is
      frozen, so it is still pending and due at the commit. */
  lemma LockedFrozen(s: Sys, step: Step, tx: int, id: int)
    requires SysOk(s) && CanStep(s, step)
    requires LockedBy(s, tx, id) && step != Commit(tx)
    ensures id in s.db.rows && id in Do(s, step).db.rows
    ensures Do(s, step).db.rows[id] == s.db.rows[id]
  {
    assert ScanOk(s, tx);
    if step.Commit? {
      assert !LockedBy(s, step.tx, id);
      CommitIsAtomicClaim(s, step.tx);
      RowStep(s.db, ClaimOf(s.scans[step.tx]), id);
    } else if step.Other? {
      RowStep(s.db, step.e, id);
    }
  }

  /** Each commit is one atomic claim of the task table. */
  lemma CommitIsAtomicClaim(s: Sys, tx: int)
    requires SysOk(s) && tx in s.scans
    ensures Enabled(s.db, ClaimOf(s.scans[tx]))
  {
    assert ScanOk(s, tx);
    HeldDistinct(s, tx);
  }

  lemma VisitOk(s: Sys, tx: int)
    requires SysOk(s) && CanStep(s, Visit(tx))
    ensures ScanOk(Do(s, Visit(tx)), tx)
    ensures Exclusive(Do(s, Visit(tx)))
  {
    var scan := s.scans[tx];
    assert ScanOk(s, tx);
    var after := VisitNext(s, tx);
    var id := scan.order[scan.visited];
    var before := scan.order[..scan.visited];
    assert after.order[..after.visited] == before + [id];
    assert (before + [id])[..|before|] == before;
    assert id !in before;
    KeptExtra(before, scan.passed, id);
    var s' := Do(s, Visit(tx));
    assert !LockedByOther(s, tx, id) ==> forall y | y in s.scans && y != tx :: !LockedBy(s, y, id);
    forall x, y, i | LockedBy(s', x, i) && LockedBy(s', y, i) ensures x == y {
      assert LockedBy(s, x, i) || (x == tx && i == id);
      assert LockedBy(s, y, i) || (y == tx && i == id);
    }
  }

  lemma StepInv(s: Sys, step: Step)
    requires SysOk(s) && CanStep(s, step)
    ensures Inv(Do(s, step).db)
  {
    match step {
      case Commit(tx) =>
        CommitIsAtomicClaim(s, tx);
        InvStep(s.db, ClaimOf(s.scans[tx]));
      case Other(e) => InvStep(s.db, e);
      case _ =>
    }
  }

  lemma OthersOk(s: Sys, step: Step, tx: int)
    requires SysOk(s) && CanStep(s, step)
    requires tx in s.scans && tx in Do(s, step).scans && step != Visit(tx)
    ensures ScanOk(Do(s, step), tx)
  {
    assert ScanOk(s, tx);
    var s' := Do(s, step);
    assert s'.scans[tx] == s.scans[tx];
    forall id | id in s.scans[tx].held ensures s'.db.rows[id] == s.db.rows[id] && id in s'.db.rows {
      assert LockedBy(s, tx, id);
      LockedFrozen(s, step, tx, id);
    }
  }

  /** No interleaving of claims and other statements breaks the invariant: locks are
      exclusive, and every locked row is still a candidate of the claim that holds it. */
  lemma StepOk(s: Sys, step: Step)
    requires SysOk(s) && CanStep(s, step)
    ensures SysOk(Do(s, step))
  {
    StepInv(s, step);
    var s' := Do(s, step);
    if step.Visit? {
      VisitOk(s, step.tx);
    } else {
      forall x, y, id | LockedBy(s', x, id) && LockedBy(s', y, id) ensures x == y {
        assert LockedBy(s, x, id) && LockedBy(s, y, id);
      }
    }
    forall tx | tx in s'.scans ensures ScanOk(s', tx) {
      if tx in s.scans && step != Visit(tx) {
        OthersOk(s, step, tx);
      }
    }
  }

  // ----- what a commit took -----

  /** Relative to its own snapshot, a finished scan holds exactly the selection the statement
      asks for among the rows it did not have to pass over: within the limit, best first,
      and nothing left behind outranks a row taken. */
  lemma CommitSelects(s: Sys, tx: int)
    requires SysOk(s) && tx in s.scans && Finished(s.scans[tx])
    ensures var scan := s.scans[tx];
            IsSelection(scan.snap, scan.queue, scan.at, scan.limit, scan.passed, scan.held)
  {
    var scan := s.scans[tx];
    assert ScanOk(s, tx);
    var seen := scan.order[..scan.visited];
    KeptSorted(scan.snap, seen, scan.passed);
    forall i | 0 <= i < |scan.held|
      ensures Candidate(scan.snap, scan.queue, scan.at, scan.held[i]) && scan.held[i] !in scan.passed
    {
      KeptMember(seen, scan.passed, scan.held[i]);
      assert scan.held[i] in scan.order;
    }
    forall id | Candidate(scan.snap, scan.queue, scan.at, id) && id !in scan.passed && id !in scan.held
      ensures |scan.held| == scan.limit
      ensures forall i | 0 <= i < |scan.held| :: !Outranks(scan.snap[id], scan.snap[scan.held[i]])
    {
      KeptMember(seen, scan.passed, id);
      var k :| 0 <= k < |scan.order| && scan.order[k] == id;
      assert forall m | 0 <= m < scan.visited :: scan.order[m] == seen[m] && seen[m] in seen;
      forall i | 0 <= i < |scan.held| ensures !Outranks(scan.snap[id], scan.snap[scan.held[i]]) {
        KeptMember(seen, scan.passed, scan.held[i]);
        var j :| 0 <= j < |seen| && seen[j] == scan.held[i];
        assert scan.order[j] == scan.held[i];
      }
    }
  }

  // ----- runs -----

  ghost predicate Steps(s: Sys, steps: seq<Step>)
    decreases |steps|, 0
  {
    steps == [] || (Steps(s, steps[..|steps| - 1]) && CanStep(After(s, steps[..|steps| - 1]), steps[|steps| - 1]))
  }

  ghost function After(s: Sys, steps: seq<Step>): Sys
    requires Steps(s, steps)
    decreases |steps|, 1
  {
    if steps == [] then s else Do(After(s, steps[..|steps| - 1]), steps[|steps| - 1])
  }

  /** The atomic statements of a run: commits become claims, lock traffic disappears. */
  ghost function Atomic(s: Sys, steps: seq<Step>): seq<Event>
    requires Steps(s, steps)
  {
    if steps == [] then [] else
    var front, step := steps[..|steps| - 1], steps[|steps| - 1];
    Atomic(s, front) +
    match step
    case Commit(tx) => [ClaimOf(After(s, front).scans[tx])]
    case Other(e) => [e]
    case _ => []
  }

  /** Refinement: whatever the interleaving, the table goes through a run of atomic
      statements. Every law about runs of the task table therefore holds of overlapping
      claims too. */
  lemma {:induction false} LockingRefinesAtomicClaims(s: Sys, steps: seq<Step>)
    requires SysOk(s) && Steps(s, steps)
    ensures SysOk(After(s, steps))
    ensures Run(s.db, Atomic(s, steps))
    ensures Exec(s.db, Atomic(s, steps)) == After(s, steps).db
  {
    if steps != [] {
      var front, step := steps[..|steps| - 1], steps[|steps| - 1];
      LockingRefinesAtomicClaims(s, front);
      StepOk(After(s, front), step);
      match step {
        case Commit(tx) =>
          CommitIsAtomicClaim(After(s, front), tx);
          RunPrefix(s.db, Atomic(s, front), ClaimOf(After(s, front).scans[tx]));
        case Other(e) =>
          RunPrefix(s.db, Atomic(s, front), e);
        case _ =>
          assert Atomic(s, steps) == Atomic(s, front);
      }
    }
  }

  /** The scan may leave row `id` to others: at this moment another claim holds it locked, or
      it is no longer pending and due. */
  ghost predicate MayPass(s: Sys, tx: int, id: int) {
    tx in s.scans && (LockedByOther(s, tx, id) || !Candidate(s.db.rows, s.scans[tx].queue, s.scans[tx].at, id))
  }

  /** At step k the open scan `tx`, not an earlier one of the same number, came to row `id` and
      had a reason to pass it. */
  ghost predicate PassedAt(s: Sys, steps: seq<Step>, tx: int, id: int, k: nat)
    requires Steps(s, steps) && k < |steps|
  {
    StepsPrefix(s, steps, k);
    var at := After(s, steps[..k]);
    steps[k] == Visit(tx) && MayPass(at, tx, id) &&
    (forall j | k < j < |steps| :: !(steps[j].Begin? && steps[j].tx == tx)) &&
    at.scans[tx].visited < |at.scans[tx].order| && at.scans[tx].order[at.scans[tx].visited] == id
  }

  lemma {:induction false} StepsPrefix(s: Sys, steps: seq<Step>, k: nat)
    requires Steps(s, steps) && k <= |steps|
    ensures Steps(s, steps[..k])
    decreases |steps|
  {
    if k < |steps| {
      StepsPrefix(s, steps[..|steps| - 1], k);
      assert steps[..|steps| - 1][..k] == steps[..k];
    } else {
      assert steps[..k] == steps;
    }
  }

  lemma PassedAtGrows(s: Sys, steps: seq<Step>, tx: int, id: int, k: nat)
    requires Steps(s, steps) && steps != [] && k < |steps| - 1
    requires Steps(s, steps[..|steps| - 1]) && PassedAt(s, steps[..|steps| - 1], tx, id, k)
    requires !(steps[|steps| - 1].Begin? && steps[|steps| - 1].tx == tx)
    ensures PassedAt(s, steps, tx, id, k)
  {
    assert steps[..|steps| - 1][..k] == steps[..k];
  }

  /** In every interleaving a row is passed over for no other reason. */
  lemma {:induction false} PassedForAReason(s: Sys, steps: seq<Step>, tx: int, id: int)
    requires s.scans == map[] && Steps(s, steps)
    requires tx in After(s, steps).scans && id in After(s, steps).scans[tx].passed
    ensures exists k: nat :: k < |steps| && PassedAt(s, steps, tx, id, k)
  {
    var front, step := steps[..|steps| - 1], steps[|steps| - 1];
    var before := After(s, front);
    if tx in before.scans && id in before.scans[tx].passed {
      PassedForAReason(s, front, tx, id);
      var k: nat :| k < |front| && PassedAt(s, front, tx, id, k);
      PassedAtGrows(s, steps, tx, id, k);
    } else {
      assert PassedAt(s, steps, tx, id, |front|);
    }
  }

  /** The selection a claim makes, over all interleavings: among the rows of its snapshot it
      commits the best ones within its limit, and leaves behind only what it had no room for,
      what ranks no higher than a row taken, and what it found locked by another claim or no
      longer pending and due when it came to it. */
  lemma OverlappingClaimSelects(s: Sys, steps: seq<Step>, tx: int)
    requires Inv(s.db) && s.scans == map[] && Steps(s, steps)
    requires tx in After(s, steps).scans && Finished(After(s, steps).scans[tx])
    ensures var scan := After(s, steps).scans[tx];
            IsSelection(scan.snap, scan.queue, scan.at, scan.limit, scan.passed, scan.held) &&
            TakesBest(scan.snap, scan.queue, scan.at, scan.limit, scan.passed, scan.held) &&
            (forall id | id in scan.held :: id in After(s, steps).db.rows &&
               MayTake(After(s, steps).db.rows[id], scan.queue, scan.at)) &&
            forall id | id in scan.passed :: exists k: nat :: k < |steps| && PassedAt(s, steps, tx, id, k)
  {
    LockingRefinesAtomicClaims(s, steps);
    CommitSelects(After(s, steps), tx);
    assert ScanOk(After(s, steps), tx);
    var scan := After(s, steps).scans[tx];
    SelectionTakesBest(scan.snap, scan.queue, scan.at, scan.limit, scan.passed, scan.held);
    forall id | id in After(s, steps).scans[tx].passed
      ensures exists k: nat :: k < |steps| && PassedAt(s, steps, tx, id, k)
    {
      PassedForAReason(s, steps, tx, id);
    }
  }

  lemma {:induction false} UninterruptedScan(s: Sys, tx: int, n: nat)
    requires SysOk(s) && tx in s.scans
    requires s.scans[tx].visited == 0 && s.scans[tx].passed == {} && s.scans[tx].held == []
    requires s.scans[tx].snap == s.db.rows
    requires Steps(s, seq(n, i => Visit(tx)))
    ensures var s' := After(s, seq(n, i => Visit(tx)));
            s'.db == s.db && tx in s'.scans && s'.scans.Keys == s.scans.Keys &&
            s'.scans[tx].snap == s.db.rows && s'.scans[tx].at == s.scans[tx].at &&
            s'.scans[tx].queue == s.scans[tx].queue && s'.scans[tx].order == s.scans[tx].order &&
            (forall y | y in s.scans && y != tx :: s'.scans[y] == s.scans[y]) &&
            (forall id | id in s'.scans[tx].passed :: LockedByOther(s, tx, id))
  {
    if n > 0 {
      var steps := seq(n, i => Visit(tx));
      assert steps[..n - 1] == seq(n - 1, i => Visit(tx));
      UninterruptedScan(s, tx, n - 1);
      var mid := After(s, seq(n - 1, i => Visit(tx)));
      LockingRefinesAtomicClaims(s, seq(n - 1, i => Visit(tx)));
      assert ScanOk(s, tx) && ScanOk(mid, tx);
      var scan := mid.scans[tx];
      var id := scan.order[scan.visited];
      assert id in scan.order;
      assert Candidate(mid.db.rows, scan.queue, scan.at, id);
      if LockedByOther(mid, tx, id) {
        var y :| y in mid.scans && y != tx && LockedBy(mid, y, id);
        assert LockedBy(s, y, id);
      }
    }
  }

  /** A claim whose scan nobody interrupts makes the full selection among the rows that are
      due right now: it passes over nothing but rows that other claims hold locked. */
  lemma UninterruptedClaim(s: Sys, tx: int, n: nat)
    requires SysOk(s) && tx in s.scans
    requires s.scans[tx].visited == 0 && s.scans[tx].passed == {} && s.scans[tx].held == []
    requires s.scans[tx].snap == s.db.rows
    requires Steps(s, seq(n, i => Visit(tx)))
    requires tx in After(s, seq(n, i => Visit(tx))).scans && Finished(After(s, seq(n, i => Visit(tx))).scans[tx])
    ensures var done := After(s, seq(n, i => Visit(tx))).scans[tx];
            (forall id | id in done.passed :: LockedByOther(s, tx, id)) &&
            IsSelection(s.db.rows, done.queue, done.at, done.limit, done.passed, done.held)
  {
    UninterruptedScan(s, tx, n);
    LockingRefinesAtomicClaims(s, seq(n, i => Visit(tx)));
    CommitSelects(After(s, seq(n, i => Visit(tx))), tx);
  }
}
