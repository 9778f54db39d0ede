// Fire times of a recurring schedule: NextN, with its two daylight-saving rules.
//
// The parsed cron expression is a fixed ascending list of whole-second instants. A zone is
// an arbitrary pair of functions: the wall clock shown at an instant, and the instant that
// time.Date picks for a wall clock. Nothing is assumed to relate the two.
module Cron {
  import opened Wrappers
  import opened Retry

  /** wall gives the text of wallClockLayout, encoded as a number; date takes that text and
      the sub-second part. */
  datatype Zone = Zone(wall: int -> int, date: (int, int) -> int)

  datatype Schedule = Schedule(fires: seq<int>, zone: Zone) {
    predicate Valid() {
      (forall i | 0 <= i < |fires| :: fires[i] % SECOND == 0) &&
      forall i, j | 0 <= i < j < |fires| :: fires[i] < fires[j]
    }
  }

  function RoundTrips(z: Zone, t: int): bool {
    z.date(z.wall(t), t % SECOND) == t
  }

  /** spec.Next: the least fire strictly after t. */
  function Next(fires: seq<int>, t: int): (next: Option<int>)
    ensures next.Some? ==> next.value in fires && next.value > t
  {
    if fires == [] then None
    else if fires[0] > t then Some(fires[0])
    else Next(fires[1..], t)
  }

  /** The set a schedule stands for: its fires after t whose wall clock is genuine. */
  ghost predicate Accepted(s: Schedule, f: int) {
    f in s.fires && RoundTrips(s.zone, f)
  }

  /** That set in order. */
  function After(fires: seq<int>, z: Zone, t: int): seq<int> {
    if fires == [] then []
    else (if fires[0] > t && RoundTrips(z, fires[0]) then [fires[0]] else []) + After(fires[1..], z, t)
  }

  function CountAfter(fires: seq<int>, t: int): nat {
    if fires == [] then 0 else (if fires[0] > t then 1 else 0) + CountAfter(fires[1..], t)
  }

  function AcceptedAfter(s: Schedule, t: int): seq<int> {
    After(s.fires, s.zone, t)
  }

  /** Where enumeration effectively starts: at the seed, or at the first accepted fire when
      that one repeats the wall clock of the seed. */
  function StartOf(s: Schedule, seed: int): int {
    var a := AcceptedAfter(s, seed);
    if a != [] && s.zone.wall(a[0]) == s.zone.wall(seed) then a[0] else seed
  }

  /** The fires owed after a seed. */
  function Owed(s: Schedule, seed: int): seq<int> {
    AcceptedAfter(s, StartOf(s, seed))
  }

  /** A seed that NextN itself could have returned. */
  ghost predicate Canonical(s: Schedule, t: int) {
    t % SECOND == 0 && RoundTrips(s.zone, t)
  }

  function Take<T>(xs: seq<T>, n: int): seq<T> {
    if n <= 0 then [] else if n < |xs| then xs[..n] else xs
  }

  // ----- the enumeration -----

  lemma {:induction false} AfterMember(fires: seq<int>, z: Zone, t: int, f: int)
    ensures f in After(fires, z, t) <==> f in fires && f > t && RoundTrips(z, f)
  {
    if fires != [] {
      AfterMember(fires[1..], z, t, f);
      assert fires == [fires[0]] + fires[1..];
    }
  }

  predicate Ascending(xs: seq<int>) {
    forall i, j | 0 <= i < j < |xs| :: xs[i] < xs[j]
  }

  lemma {:induction false} AfterAscending(fires: seq<int>, z: Zone, t: int)
    requires Ascending(fires)
    ensures Ascending(After(fires, z, t))
  {
    if fires != [] {
      AfterAscending(fires[1..], z, t);
      var rest := After(fires[1..], z, t);
      forall i | 0 <= i < |rest| ensures fires[0] < rest[i] {
        AfterMember(fires[1..], z, t, rest[i]);
        assert rest[i] in rest;
        var k :| 0 <= k < |fires[1..]| && fires[1..][k] == rest[i];
        assert fires[k + 1] == rest[i];
      }
    }
  }

  /** Instants between t and u that are no fires make no difference. */
  lemma {:induction false} AfterSame(fires: seq<int>, z: Zone, t: int, u: int)
    requires forall i | 0 <= i < |fires| :: fires[i] > t <==> fires[i] > u
    ensures After(fires, z, t) == After(fires, z, u)
    ensures CountAfter(fires, t) == CountAfter(fires, u)
  {
    if fires != [] {
      AfterSame(fires[1..], z, t, u);
    }
  }

  lemma NextLater(fires: seq<int>, t: int)
    requires Ascending(fires) && fires != [] && Next(fires[1..], t).Some?
    ensures Next(fires[1..], t).value > fires[0]
  {
    var f := Next(fires[1..], t).value;
    var k :| 0 <= k < |fires[1..]| && fires[1..][k] == f;
    assert fires[k + 1] == f;
  }

  /** One call of spec.Next peels one candidate off. */
  lemma {:induction false} NextPeels(fires: seq<int>, z: Zone, t: int)
    requires Ascending(fires)
    ensures Next(fires, t).None? ==> After(fires, z, t) == []
    ensures Next(fires, t).Some? ==> (
              var f := Next(fires, t).value;
              After(fires, z, t) == (if RoundTrips(z, f) then [f] else []) + After(fires, z, f) &&
              CountAfter(fires, f) < CountAfter(fires, t))
  {
    if fires != [] {
      var rest := fires[1..];
      assert forall i | 0 <= i < |rest| :: rest[i] == fires[i + 1] && rest[i] > fires[0];
      if fires[0] > t {
        AfterSame(rest, z, t, fires[0]);
      } else {
        NextPeels(rest, z, t);
        if Next(rest, t).Some? {
          NextLater(fires, t);
        }
      }
    }
  }

  /** spec.Next is the least fire after t, and gives up only when there is none. */
  lemma {:induction false} NextIsLeast(fires: seq<int>, t: int, f: int)
    requires Ascending(fires) && f in fires && f > t
    ensures Next(fires, t).Some? && Next(fires, t).value <= f
  {
    if fires[0] > t {
      var k :| 0 <= k < |fires| && fires[k] == f;
    } else {
      assert fires == [fires[0]] + fires[1..];
      NextIsLeast(fires[1..], t, f);
    }
  }

  /** No two accepted instants share a wall clock. */
  lemma WallClockUnique(s: Schedule, f: int, g: int)
    requires s.Valid() && Accepted(s, f) && (Accepted(s, g) || Canonical(s, g))
    requires s.zone.wall(f) == s.zone.wall(g)
    ensures f == g
  {
    var i :| 0 <= i < |s.fires| && s.fires[i] == f;
    if Accepted(s, g) {
      var j :| 0 <= j < |s.fires| && s.fires[j] == g;
    }
  }

  /** The accepted fires after t, as a set: complete, ascending, nothing else. */
  lemma AcceptedAfterSpec(s: Schedule, t: int)
    requires s.Valid()
    ensures Ascending(AcceptedAfter(s, t))
    ensures forall f :: f in AcceptedAfter(s, t) <==> Accepted(s, f) && f > t
  {
    AfterAscending(s.fires, s.zone, t);
    forall f ensures f in AcceptedAfter(s, t) <==> Accepted(s, f) && f > t {
      AfterMember(s.fires, s.zone, t, f);
    }
  }

  // ----- what is left in the loop -----

  /** The instants the loop will still emit, at position t with lastWallClock `last`. */
  function Pending(s: Schedule, t: int, last: int): seq<int> {
    var a := AcceptedAfter(s, t);
    if a != [] && s.zone.wall(a[0]) == last then a[1..] else a
  }

  /** The rest of an ascending enumeration is the enumeration after its first element. */
  lemma AfterFirst(s: Schedule, t: int)
    requires s.Valid() && AcceptedAfter(s, t) != []
    ensures AcceptedAfter(s, AcceptedAfter(s, t)[0]) == AcceptedAfter(s, t)[1..]
  {
    var a := AcceptedAfter(s, t);
    AcceptedAfterSpec(s, t);
    AfterDrop(s, t, 1);
  }

  /** Enumerating after the k-th element drops k + 1 elements. */
  lemma {:induction false} AfterDrop(s: Schedule, t: int, k: nat)
    requires s.Valid() && 1 <= k <= |AcceptedAfter(s, t)|
    ensures AcceptedAfter(s, AcceptedAfter(s, t)[k - 1]) == AcceptedAfter(s, t)[k..]
  {
    var a := AcceptedAfter(s, t);
    AcceptedAfterSpec(s, t);
    AscendingUnique(AcceptedAfter(s, a[k - 1]), a[k..]) by {
      AcceptedAfterSpec(s, a[k - 1]);
      forall f ensures f in AcceptedAfter(s, a[k - 1]) <==> f in a[k..] {
        if f in AcceptedAfter(s, a[k - 1]) {
          assert a[k - 1] in a;
          assert f in a;
          var i :| 0 <= i < |a| && a[i] == f;
          assert i >= k;
          assert a[k..][i - k] == f;
        }
        if f in a[k..] {
          var i :| 0 <= i < |a[k..]| && a[k..][i] == f;
          assert a[k + i] == f && f in a;
        }
      }
    }
  }

  /** An ascending list is determined by its elements. */
  lemma {:induction false} AscendingUnique(xs: seq<int>, ys: seq<int>)
    requires Ascending(xs) && Ascending(ys)
    requires forall f :: f in xs <==> f in ys
    ensures xs == ys
  {
    if xs == [] {
      assert forall i | 0 <= i < |ys| :: ys[i] in ys;
    } else {
      assert xs[0] in xs;
      assert ys != [] && ys[0] in ys;
      assert ys[0] in xs && xs[0] in ys;
      forall f ensures f in xs[1..] <==> f in ys[1..] {
        if f in xs[1..] { assert f in xs; assert f > xs[0]; assert f in ys; }
        if f in ys[1..] { assert f in ys; assert f > ys[0]; assert f in xs; }
      }
      AscendingUnique(xs[1..], ys[1..]);
    }
  }

  lemma PendingAtStart(s: Schedule, seed: int)
    requires s.Valid()
    ensures Pending(s, seed, s.zone.wall(seed)) == Owed(s, seed)
  {
    var a := AcceptedAfter(s, seed);
    if a != [] && s.zone.wall(a[0]) == s.zone.wall(seed) {
      AfterFirst(s, seed);
    }
  }

  /** After an accepted instant with its own wall clock as the last one, everything after it
      is pending: the wall-clock test cannot reject a later instant. */
  lemma PendingAfterAccepted(s: Schedule, f: int)
    requires s.Valid() && Accepted(s, f)
    ensures Pending(s, f, s.zone.wall(f)) == AcceptedAfter(s, f)
  {
    var a := AcceptedAfter(s, f);
    AcceptedAfterSpec(s, f);
    if a != [] {
      assert a[0] in a;
      if s.zone.wall(a[0]) == s.zone.wall(f) {
        WallClockUnique(s, a[0], f);
      }
    }
  }

  /** One round of the loop, in its four outcomes. */
  lemma PendingStep(s: Schedule, t: int, last: int)
    requires s.Valid()
    ensures var next := Next(s.fires, t);
            if next.None? then Pending(s, t, last) == []
            else if !RoundTrips(s.zone, next.value) || s.zone.wall(next.value) == last then
              Pending(s, next.value, last) == Pending(s, t, last)
            else
              [next.value] + Pending(s, next.value, s.zone.wall(next.value)) == Pending(s, t, last)
    ensures Next(s.fires, t).Some? ==> CountAfter(s.fires, Next(s.fires, t).value) < CountAfter(s.fires, t)
  {
    NextPeels(s.fires, s.zone, t);
    var next := Next(s.fires, t);
    if next.Some? && RoundTrips(s.zone, next.value) {
      PendingAfterAccepted(s, next.value);
    }
  }

  /** NextN returns exactly the first n owed fires, whatever the seed. */
  method NextN(s: Schedule, after: int, n: int) returns (out: seq<int>)
    requires s.Valid()
    ensures out == if n <= 0 then [] else if n < |Owed(s, after)| then Owed(s, after)[..n] else Owed(s, after)
  {
    if n <= 0 {
      return [];
    }
    out := [];
    var t := after;
    var lastWallClock := s.zone.wall(t);
    PendingAtStart(s, after);
    while |out| < n
      invariant |out| <= n
      invariant out + Pending(s, t, lastWallClock) == Owed(s, after)
      decreases CountAfter(s.fires, t)
    {
      PendingStep(s, t, lastWallClock);
      var next := Next(s.fires, t);
      if next.None? {
        break;
      }
      t := next.value;
      if !RoundTrips(s.zone, t) {
        continue;
      }
      var wallClock := s.zone.wall(t);
      if wallClock == lastWallClock {
        continue;
      }
      lastWallClock := wallClock;
      out := out + [t];
    }
  }

  // ----- laws of the enumeration -----

  /** From a canonical seed, such as a watermark, nothing is dropped: the result is the first
      n elements of the accepted fires after the seed, so lastWallClock can only ever reject
      a candidate that matches a seed which is not itself a fire. */
  lemma CanonicalOwed(s: Schedule, seed: int)
    requires s.Valid() && Canonical(s, seed)
    ensures Owed(s, seed) == AcceptedAfter(s, seed)
  {
    AcceptedAfterSpec(s, seed);
    var a := AcceptedAfter(s, seed);
    if a != [] {
      assert a[0] in a;
      if s.zone.wall(a[0]) == s.zone.wall(seed) {
        WallClockUnique(s, a[0], seed);
      }
    }
  }

  /** What is owed after any seed: ascending, accepted, later than the seed, and complete but
      for at most the one fire that repeats the wall clock of the seed. */
  lemma OwedSpec(s: Schedule, seed: int)
    requires s.Valid()
    ensures Ascending(Owed(s, seed))
    ensures seed <= StartOf(s, seed)
    ensures forall f :: f in Owed(s, seed) <==> Accepted(s, f) && f > StartOf(s, seed)
    ensures forall f | Accepted(s, f) && seed < f <= StartOf(s, seed) ::
              f == StartOf(s, seed) && s.zone.wall(f) == s.zone.wall(seed)
    ensures forall f | Accepted(s, f) && seed < f ::
              (f !in Owed(s, seed) <==>
               s.zone.wall(f) == s.zone.wall(seed) && forall g | Accepted(s, g) && seed < g :: f <= g)
  {
    AcceptedAfterSpec(s, seed);
    AcceptedAfterSpec(s, StartOf(s, seed));
    var a := AcceptedAfter(s, seed);
    if a != [] {
      assert a[0] in a;
      forall f | Accepted(s, f) && seed < f ensures f >= a[0] {
        assert f in a;
      }
    }
  }

  /** What is owed after the k-th owed fire is the rest of the list. */
  lemma OwedRest(s: Schedule, seed: int, k: nat)
    requires s.Valid() && 1 <= k <= |Owed(s, seed)|
    ensures Canonical(s, Owed(s, seed)[k - 1])
    ensures Owed(s, Owed(s, seed)[k - 1]) == Owed(s, seed)[k..]
  {
    var owed := Owed(s, seed);
    AfterDrop(s, StartOf(s, seed), k);
    AcceptedAfterSpec(s, StartOf(s, seed));
    assert owed[k - 1] in owed;
    CanonicalAccepted(s, owed[k - 1]);
    CanonicalOwed(s, owed[k - 1]);
  }

  /** Resuming from the last instant returned loses nothing and repeats nothing. */
  lemma Resume(s: Schedule, seed: int, n: nat, m: nat)
    requires s.Valid()
    ensures var first := Take(Owed(s, seed), n);
            var from := if first == [] then seed else first[|first| - 1];
            Take(Owed(s, seed), n + m) == first + Take(Owed(s, from), m)
  {
    var owed := Owed(s, seed);
    var first := Take(owed, n);
    if first != [] {
      assert first[|first| - 1] == owed[|first| - 1];
      OwedRest(s, seed, |first|);
      assert owed == first + owed[|first|..];
    }
  }

  lemma CanonicalAccepted(s: Schedule, f: int)
    requires s.Valid() && Accepted(s, f)
    ensures Canonical(s, f)
  {
    var i :| 0 <= i < |s.fires| && s.fires[i] == f;
  }

  /** No wall clock fires twice: any two instants returned by any calls, from whatever seeds,
      that show the same wall clock are the same instant. */
  lemma NoWallClockTwice(s: Schedule, a: int, n: int, b: int, m: int, f: int, g: int)
    requires s.Valid()
    requires f in Take(Owed(s, a), n) && g in Take(Owed(s, b), m)
    requires s.zone.wall(f) == s.zone.wall(g)
    ensures f == g
  {
    OwedSpec(s, a);
    OwedSpec(s, b);
    assert f in Owed(s, a) && g in Owed(s, b);
    WallClockUnique(s, f, g);
  }

  /** An ambiguous wall clock, shown at several fires, fires at exactly the one instant that
      time.Date picks for it, whichever that is. */
  lemma AmbiguousFiresOnce(s: Schedule, f: int, g: int)
    requires s.Valid() && f in s.fires && g in s.fires && f != g
    requires s.zone.wall(f) == s.zone.wall(g)
    ensures s.zone.date(s.zone.wall(f), 0) == f ==> Accepted(s, f) && !Accepted(s, g)
    ensures Accepted(s, f) ==> s.zone.date(s.zone.wall(f), 0) == f
  {
    var i :| 0 <= i < |s.fires| && s.fires[i] == f;
    var j :| 0 <= j < |s.fires| && s.fires[j] == g;
  }
}
