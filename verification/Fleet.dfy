/** The driver fleet (backend/internal/dispatch/driver.go) and the nearest-first ranking of
    AVAILABLE drivers that dispatch works from.

    Distance is an abstract function into the reals (the great-circle formula is not modelled);
    everything below holds for every such function. */
module Fleet {
  import opened Common
  import opened Ordering

  type DriverId = string
  datatype Status = Available | Busy | Offline
  datatype Location = Location(lat: real, lng: real)
  datatype Driver = Driver(at: Location, status: Status)
  type Drivers = map<DriverId, Driver>
  type Metric = (Location, Location) -> real

  /** A driver row paired with its distance from the pickup point. */
  datatype Candidate = Candidate(id: DriverId, km: real)

  datatype Nearest = NoDriver | Found(id: DriverId, driver: Driver, km: real)

  predicate IsAvailable(drivers: Drivers, id: DriverId)
  {
    id in drivers && drivers[id].status == Available
  }

  function AvailableIds(drivers: Drivers): set<DriverId>
  {
    set id | id in drivers && drivers[id].status == Available
  }

  /** The comparison passed to `sort.Slice`: distance first, driver id on ties. */
  predicate Before(a: Candidate, b: Candidate)
  {
    if a.km == b.km then LexLess(a.id, b.id) else a.km < b.km
  }

  lemma BeforeIsStrictTotal()
    ensures StrictTotal(Before)
  {
    forall x: Candidate, y: Candidate
      ensures !Before(x, x) && (x != y ==> Before(x, y) || Before(y, x))
    {
      LexTotal(x.id, y.id);
      LexTotal(x.id, x.id);
    }
    forall x: Candidate, y: Candidate, z: Candidate | Before(x, y) && Before(y, z)
      ensures Before(x, z)
    {
      if x.km == y.km == z.km {
        LexTransitive(x.id, y.id, z.id);
      }
    }
  }

  function CandidateOf(km: Metric, pickup: Location, drivers: Drivers, id: DriverId): Candidate
    requires id in drivers
  {
    Candidate(id, km(pickup, drivers[id].at))
  }

  /** `id` is AVAILABLE and precedes every other AVAILABLE driver by (distance, id). */
  ghost predicate IsNearest(km: Metric, pickup: Location, drivers: Drivers, id: DriverId)
  {
    && IsAvailable(drivers, id)
    && forall other | other in drivers && other != id && drivers[other].status == Available ::
         Before(CandidateOf(km, pickup, drivers, id), CandidateOf(km, pickup, drivers, other))
  }

  lemma NearestIsUnique(km: Metric, pickup: Location, drivers: Drivers, a: DriverId, b: DriverId)
    requires IsNearest(km, pickup, drivers, a) && IsNearest(km, pickup, drivers, b)
    ensures a == b
  {
    LexTotal(a, b);
  }

  /** In terms of distances and ids: no AVAILABLE driver is closer, and of those equally close the id
      comes first in the byte order. */
  lemma NearestMeans(km: Metric, pickup: Location, drivers: Drivers, id: DriverId)
    ensures IsNearest(km, pickup, drivers, id) <==>
      && id in drivers && drivers[id].status == Available
      && forall other | other in drivers && other != id && drivers[other].status == Available ::
           var a, b := km(pickup, drivers[id].at), km(pickup, drivers[other].at);
           a < b || (a == b && exists k: nat :: FirstDifference(id, other, k))
  {
    forall other ensures LexLess(id, other) <==> exists k: nat :: FirstDifference(id, other, k) {
      LexLessIff(id, other);
    }
  }

  /** What the candidate list of `AssignTrip` is: all AVAILABLE drivers, strictly ordered. */
  ghost predicate IsRanking(km: Metric, pickup: Location, drivers: Drivers, cands: seq<Candidate>)
  {
    && (forall i, j | 0 <= i < j < |cands| :: Before(cands[i], cands[j]))
    && (forall i | 0 <= i < |cands| ::
          && IsAvailable(drivers, cands[i].id)
          && cands[i] == CandidateOf(km, pickup, drivers, cands[i].id))
    && (forall id | id in drivers && drivers[id].status == Available :: Lists(cands, id))
  }

  ghost predicate Lists(cands: seq<Candidate>, id: DriverId)
  {
    exists i :: 0 <= i < |cands| && cands[i].id == id
  }

  /** The candidate list is empty exactly when no driver is AVAILABLE, and otherwise its head is
      the driver a nearest-driver scan returns. */
  lemma RankingHeadIsNearest(km: Metric, pickup: Location, drivers: Drivers, cands: seq<Candidate>)
    requires IsRanking(km, pickup, drivers, cands)
    ensures cands == [] <==> AvailableIds(drivers) == {}
    ensures cands != [] ==> IsNearest(km, pickup, drivers, cands[0].id)
  {
    assert forall id | id in AvailableIds(drivers) :: Lists(cands, id);
    if cands != [] {
      assert cands[0].id in AvailableIds(drivers);
      forall other | other in drivers && other != cands[0].id && drivers[other].status == Available
        ensures Before(CandidateOf(km, pickup, drivers, cands[0].id), CandidateOf(km, pickup, drivers, other))
      {
        assert Lists(cands, other);
        var i :| 0 <= i < |cands| && cands[i].id == other;
        assert Before(cands[0], cands[i]);
      }
    }
  }

  /** A ranking has one entry per AVAILABLE driver. */
  lemma RankingLength(km: Metric, pickup: Location, drivers: Drivers, cands: seq<Candidate>)
    requires IsRanking(km, pickup, drivers, cands)
    ensures |cands| == |AvailableIds(drivers)| <= |drivers|
  {
    var ids := seq(|cands|, i requires 0 <= i < |cands| => cands[i].id);
    forall i, j | 0 <= i < j < |ids| ensures ids[i] != ids[j] {
      assert Before(cands[i], cands[j]);
      LexTotal(cands[i].id, cands[i].id);
    }
    DistinctSize(ids);
    assert (set id | id in ids) == AvailableIds(drivers) by {
      forall id | id in AvailableIds(drivers) ensures id in ids {
        assert Lists(cands, id);
        var i :| 0 <= i < |cands| && cands[i].id == id;
        assert ids[i] == id;
      }
    }
    SubsetSize(AvailableIds(drivers), drivers.Keys);
    assert |drivers.Keys| == |drivers|;
  }

  lemma {:induction false} DistinctSize<T>(s: seq<T>)
    requires forall i, j | 0 <= i < j < |s| :: s[i] != s[j]
    ensures |set x | x in s| == |s|
  {
    if s == [] {
      assert (set x | x in s) == {};
    } else {
      DistinctSize(s[1..]);
      assert s == [s[0]] + s[1..];
      assert (set x | x in s) == (set x | x in s[1..]) + {s[0]};
    }
  }

  lemma {:induction false} SubsetSize<T>(a: set<T>, b: set<T>)
    requires a <= b
    ensures |a| <= |b|
  {
    if a != {} {
      var x :| x in a;
      SubsetSize(a - {x}, b - {x});
    }
  }

  /** Every fleet has a ranking: the snapshot step of dispatch never gets stuck. */
  lemma {:induction false} RankingExists(km: Metric, pickup: Location, drivers: Drivers)
    ensures exists cands :: IsRanking(km, pickup, drivers, cands)
  {
    var ids := SeqOf(AvailableIds(drivers));
    assert forall i | 0 <= i < |ids| :: ids[i] in AvailableIds(drivers);
    var rows := seq(|ids|, i requires 0 <= i < |ids| && ids[i] in drivers => CandidateOf(km, pickup, drivers, ids[i]));
    var cands := SortBy(Before, rows);
    BeforeIsStrictTotal();
    SortBySorts(Before, rows);
    SortedRowsAreRanking(km, pickup, drivers, ids, rows, cands);
  }

  ghost function SeqOf<T(!new)>(s: set<T>): (r: seq<T>)
    ensures forall x :: x in r <==> x in s
    ensures forall i, j | 0 <= i < j < |r| :: r[i] != r[j]
  {
    if s == {} then [] else var x :| x in s; [x] + SeqOf(s - {x})
  }

  /** Sorting one row per AVAILABLE driver gives a ranking. */
  lemma SortedRowsAreRanking(km: Metric, pickup: Location, drivers: Drivers,
                             ids: seq<DriverId>, rows: seq<Candidate>, cands: seq<Candidate>)
    requires |rows| == |ids|
    requires forall i, j | 0 <= i < j < |ids| :: ids[i] != ids[j]
    requires forall id :: id in ids <==> IsAvailable(drivers, id)
    requires forall i | 0 <= i < |ids| :: ids[i] in drivers && rows[i] == CandidateOf(km, pickup, drivers, ids[i])
    requires Sorted(Before, cands) && multiset(cands) == multiset(rows)
    ensures IsRanking(km, pickup, drivers, cands)
  {
    forall i | 0 <= i < |cands|
      ensures IsAvailable(drivers, cands[i].id) && cands[i] == CandidateOf(km, pickup, drivers, cands[i].id)
    {
      assert cands[i] in multiset(cands);
      var k :| 0 <= k < |rows| && rows[k] == cands[i];
      assert ids[k] in ids;
    }
    forall id | id in drivers && drivers[id].status == Available
      ensures Lists(cands, id)
    {
      assert IsAvailable(drivers, id);
      var k :| 0 <= k < |ids| && ids[k] == id;
      assert rows[k] in multiset(rows);
      assert rows[k] in cands;
    }
    DistinctRows(ids, rows);
    NoRepeats(rows, cands);
  }

  lemma DistinctRows(ids: seq<DriverId>, rows: seq<Candidate>)
    requires |rows| == |ids|
    requires forall i, j | 0 <= i < j < |ids| :: ids[i] != ids[j]
    requires forall i | 0 <= i < |ids| :: rows[i].id == ids[i]
    ensures forall i, j | 0 <= i < j < |rows| :: rows[i] != rows[j]
  {
  }

  lemma NoRepeats<T(!new)>(rows: seq<T>, cands: seq<T>)
    requires multiset(cands) == multiset(rows)
    requires forall i, j | 0 <= i < j < |rows| :: rows[i] != rows[j]
    ensures forall i, j | 0 <= i < j < |cands| :: cands[i] != cands[j]
  {
    forall i, j | 0 <= i < j < |cands|
      ensures cands[i] != cands[j]
    {
      CountAtMostOne(rows, cands[i]);
      if cands[i] == cands[j] {
        CountAtLeastTwo(cands, i, j);
      }
    }
  }

  lemma CountAtLeastTwo<T>(s: seq<T>, i: nat, j: nat)
    requires i < j < |s| && s[i] == s[j]
    ensures multiset(s)[s[i]] >= 2
  {
    assert s == s[..j] + s[j..];
    assert s[i] in s[..j] && s[j] in s[j..];
    assert s[i] in multiset(s[..j]) && s[j] in multiset(s[j..]);
  }

  lemma {:induction false} CountAtMostOne<T>(rows: seq<T>, x: T)
    requires forall i, j | 0 <= i < j < |rows| :: rows[i] != rows[j]
    ensures multiset(rows)[x] <= 1
  {
    if rows != [] {
      CountAtMostOne(rows[1..], x);
      assert rows == [rows[0]] + rows[1..];
      if rows[0] == x {
        assert x !in rows[1..];
      }
    }
  }

  /** A position to seed: an empty id is to be generated, a missing status means AVAILABLE. */
  datatype Position = Position(id: DriverId, at: Location, status: Option<Status>)

  function Entry(p: Position, generated: DriverId): (DriverId, Driver)
  {
    (if p.id == "" then generated else p.id, Driver(p.at, if p.status.Some? then p.status.value else Available))
  }

  function Entries(positions: seq<Position>, generated: seq<DriverId>): (rows: seq<(DriverId, Driver)>)
    requires |generated| == |positions|
    ensures |rows| == |positions|
    ensures forall i | 0 <= i < |rows| :: rows[i] == Entry(positions[i], generated[i])
  {
    seq(|positions|, i requires 0 <= i < |positions| => Entry(positions[i], generated[i]))
  }

  /** The last of the first `n` rows with this id, or -1. */
  function LastOf(rows: seq<(DriverId, Driver)>, n: nat, id: DriverId): (k: int)
    requires n <= |rows|
    ensures -1 <= k < n && (k >= 0 ==> rows[k].0 == id)
    ensures forall j | k < j < n :: rows[j].0 != id
  {
    if n == 0 then -1 else if rows[n - 1].0 == id then n - 1 else LastOf(rows, n - 1, id)
  }

  /** `after` is `before` with the first `n` rows stored: all of them, the last of equal ids winning,
      and nothing else changed. */
  ghost predicate Stored(before: Drivers, rows: seq<(DriverId, Driver)>, n: nat, after: Drivers)
    requires n <= |rows|
  {
    forall id :: StoredAt(before, rows, n, after, id)
  }

  predicate StoredAt(before: Drivers, rows: seq<(DriverId, Driver)>, n: nat, after: Drivers, id: DriverId)
    requires n <= |rows|
  {
    var k := LastOf(rows, n, id);
    if k >= 0 then id in after && after[id] == rows[k].1
    else (id in after <==> id in before) && (id in before ==> after[id] == before[id])
  }

  /** In the table: a missing id becomes the generated one, a missing status AVAILABLE, and everything
      else is stored as given, unless a later position has the same id. */
  lemma SeededPosition(before: Drivers, positions: seq<Position>, generated: seq<DriverId>, after: Drivers, i: nat)
    requires |generated| == |positions| && Stored(before, Entries(positions, generated), |positions|, after)
    requires i < |positions|
    requires forall j | i < j < |positions| ::
      (if positions[j].id == "" then generated[j] else positions[j].id) != (if positions[i].id == "" then generated[i] else positions[i].id)
    ensures var id := if positions[i].id == "" then generated[i] else positions[i].id;
      && id in after && after[id].at == positions[i].at
      && (positions[i].status.None? ==> after[id].status == Available)
      && (positions[i].status.Some? ==> after[id].status == positions[i].status.value)
  {
    var rows := Entries(positions, generated);
    var id := rows[i].0;
    assert StoredAt(before, rows, |positions|, after, id);
    assert forall j | i < j < |positions| :: rows[j].0 != id;
    assert LastOf(rows, |positions|, id) == i;
  }

  lemma StoredNext(before: Drivers, rows: seq<(DriverId, Driver)>, n: nat, now: Drivers)
    requires n < |rows| && Stored(before, rows, n, now)
    ensures Stored(before, rows, n + 1, now[rows[n].0 := rows[n].1])
  {
    var next, after := n + 1, now[rows[n].0 := rows[n].1];
    forall id ensures StoredAt(before, rows, next, after, id) {
      assert StoredAt(before, rows, n, now, id);
    }
  }

  /** The in-memory fleet: `Repository` of driver.go, whose methods run under its lock. */
  class Repository {
    var drivers: Drivers

    constructor ()
      ensures drivers == map[]
    {
      drivers := map[];
    }

    /** `generated[i]` is the id the generator yields for position `i`, should it need one. */
    method Seed(positions: seq<Position>, generated: seq<DriverId>)
      requires |generated| == |positions|
      modifies this
      ensures Stored(old(drivers), Entries(positions, generated), |positions|, drivers)
    {
      ghost var rows := Entries(positions, generated);
      var k := 0;
      while k < |positions|
        invariant 0 <= k <= |positions|
        invariant Stored(old(drivers), rows, k, drivers)
      {
        var row := Entry(positions[k], generated[k]);
        StoredNext(old(drivers), rows, k, drivers);
        drivers := drivers[row.0 := row.1];
        k := k + 1;
      }
    }

    /** The scan visits the map in any order; its answer does not depend on it, because at most
        one driver satisfies `IsNearest`. */
    method FindNearestAvailable(km: Metric, pickup: Location) returns (r: Nearest)
      ensures r.NoDriver? <==> AvailableIds(drivers) == {}
      ensures r.Found? ==>
        && IsNearest(km, pickup, drivers, r.id)
        && r.driver == drivers[r.id]
        && r.km == km(pickup, r.driver.at)
    {
      r := NoDriver;
      var rest := drivers.Keys;
      while rest != {}
        invariant rest <= drivers.Keys
        invariant r.NoDriver? <==> forall id | id in drivers && id !in rest :: drivers[id].status != Available
        invariant r.Found? ==>
          && r.id in drivers && r.id !in rest && r.driver == drivers[r.id] && r.driver.status == Available
          && r.km == km(pickup, r.driver.at)
          && forall other | other in drivers && other !in rest && other != r.id && drivers[other].status == Available ::
               Before(Candidate(r.id, r.km), CandidateOf(km, pickup, drivers, other))
        decreases rest
      {
        var id :| id in rest;
        rest := rest - {id};
        var d := drivers[id];
        if d.status != Available {
          continue;
        }
        var dist := km(pickup, d.at);
        BeforeIsStrictTotal();
        if r.NoDriver? || dist < r.km || (dist == r.km && LexLess(id, r.id)) {
          r := Found(id, d, dist);
        }
      }
      if r.Found? {
        assert r.id in AvailableIds(drivers);
      }
    }

    method SetStatus(id: DriverId, status: Status) returns (ok: bool)
      modifies this
      ensures ok <==> id in old(drivers)
      ensures drivers == if ok then old(drivers)[id := old(drivers)[id].(status := status)] else old(drivers)
    {
      if id !in drivers {
        return false;
      }
      drivers := drivers[id := drivers[id].(status := status)];
      return true;
    }
  }
}
