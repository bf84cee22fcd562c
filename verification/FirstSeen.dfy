/** The bike master table: when each bike was first seen, built chunk by chunk
    (pipeline/collection_priority/jobs/build_dim_bike.py). */
module FirstSeen {
  import opened Basics
  import opened IcebergTable

  /** A Silver rental of partition `day`, starting at second `at`. */
  datatype Rental = Rental(bike: string, at: int, day: Day)

  datatype GoldRow = GoldRow(bike: string, firstSeen: int)

  const DAY_SECONDS := 86400

  function SnapshotOf(g: GoldRow): Day {
    g.firstSeen / DAY_SECONDS
  }

  /** Each rental lies in the partition of its own date. */
  ghost predicate OwnPartition(silver: set<Rental>) {
    forall r | r in silver :: r.day == r.at / DAY_SECONDS
  }

  function Between(silver: set<Rental>, from: Day, last: Day): set<Rental> {
    set r | r in silver && from <= r.day <= last
  }

  predicate IsFirst(rows: set<Rental>, r: Rental) {
    forall q | q in rows && q.bike == r.bike :: r.at <= q.at
  }

  /** SELECT bike_id, MIN(rent_dt) GROUP BY bike_id. */
  function FirstSeenOf(rows: set<Rental>): set<GoldRow> {
    set r | r in rows && IsFirst(rows, r) :: GoldRow(r.bike, r.at)
  }

  function BikesOf(gold: set<GoldRow>): set<string> {
    set g | g in gold :: g.bike
  }

  /** _compute_new_bikes: first sightings in the range of bikes the table does not know. */
  function NewBikes(rows: set<Rental>, gold: set<GoldRow>): set<GoldRow> {
    set g | g in FirstSeenOf(rows) && g.bike !in BikesOf(gold)
  }

  function UpTo(all: set<GoldRow>, frontier: Day): set<GoldRow> {
    set g | g in all && SnapshotOf(g) <= frontier
  }

  function DaysOf(rows: set<GoldRow>): set<Day> {
    set g | g in rows :: SnapshotOf(g)
  }

  // ---------------------------------------------------------------- SELECT DISTINCT ... ORDER BY 1

  ghost predicate Increasing(s: seq<Day>) {
    forall i, j | 0 <= i < j < |s| :: s[i] < s[j]
  }

  lemma {:induction false} HasMinimum(days: set<Day>)
    requires days != {}
    ensures exists d | d in days :: forall e | e in days :: d <= e
    decreases |days|
  {
    var x := Witness(days);
    var rest := days - {x};
    if rest == {} {
      assert days == {x} + rest;
    } else {
      HasMinimum(rest);
      var y :| y in rest && forall e | e in rest :: y <= e;
      var d := Min(x, y);
      assert d in days;
      forall e | e in days ensures d <= e {
        assert e == x || e in rest;
      }
    }
  }

  function SortedDays(days: set<Day>): (s: seq<Day>)
    ensures Increasing(s) && (forall d :: d in s <==> d in days)
    decreases |days|
  {
    if days == {} then []
    else
      HasMinimum(days);
      var d :| d in days && forall e | e in days :: d <= e;
      [d] + SortedDays(days - {d})
  }

  // ---------------------------------------------------------------- one chunk

  /** overwrite_partition of one snapshot date. */
  function WriteDay(gold: set<GoldRow>, added: set<GoldRow>, d: Day): set<GoldRow> {
    ReplaceRange(gold, SnapshotOf, OnDay(added, SnapshotOf, d), d, d)
  }

  /** The table after the first n overwrites. */
  function WriteDays(gold: set<GoldRow>, added: set<GoldRow>, values: seq<Day>, n: nat): set<GoldRow>
    requires n <= |values|
  {
    if n == 0 then gold else WriteDay(WriteDays(gold, added, values, n - 1), added, values[n - 1])
  }

  datatype State = State(gold: set<GoldRow>, mark: Day)

  /** One run that may make `budget` writes: an overwrite per new partition, then, once the re-read table
      has passed its checks, the watermark. With fewer it dies in between, or after the last overwrite. */
  function RunOnce(silver: set<Rental>, st: State, end: Day, budget: nat): State {
    if st.mark + 1 > end then st
    else
      var added := NewBikes(Between(silver, st.mark + 1, end), st.gold);
      var values := SortedDays(DaysOf(added));
      if budget <= |values| then st.(gold := WriteDays(st.gold, added, values, budget))
      else State(WriteDays(st.gold, added, values, |values|), end)
  }

  function RunAll(silver: set<Rental>, st: State, runs: seq<(Day, nat)>): State
    decreases |runs|
  {
    if runs == [] then st else RunAll(silver, RunOnce(silver, st, runs[0].0, runs[0].1), runs[1..])
  }

  // ---------------------------------------------------------------- the frontier

  /** The table is the whole answer cut at some day: at or beyond the watermark after a crash. */
  ghost predicate Inv(silver: set<Rental>, st: State, frontier: Day) {
    st.mark <= frontier && st.gold == UpTo(FirstSeenOf(silver), frontier)
  }

  /** Times and partitions run in the same direction, so a bike is known exactly when it appeared at
      or before the frontier. */
  lemma {:induction false} HasFirst(rows: set<Rental>, r: Rental) returns (f: Rental)
    requires r in rows
    ensures f in rows && f.bike == r.bike && f.at <= r.at && IsFirst(rows, f)
    decreases |rows|
  {
    if q :| q in rows && q.bike == r.bike && q.at < r.at {
      var rest := rows - {r};
      f := HasFirst(rest, q);
      forall p | p in rows && p.bike == f.bike ensures f.at <= p.at {
        assert p == r || p in rest;
      }
    } else {
      f := r;
    }
  }

  lemma KnownBikes(silver: set<Rental>, frontier: Day, r: Rental)
    requires OwnPartition(silver) && r in silver && r.day <= frontier
    ensures r.bike in BikesOf(UpTo(FirstSeenOf(silver), frontier))
  {
    var f := HasFirst(silver, r);
    var g := GoldRow(f.bike, f.at);
    assert g in FirstSeenOf(silver) && g in UpTo(FirstSeenOf(silver), frontier);
  }

  lemma OtherDayOtherBike(rows: set<Rental>, g: GoldRow, h: GoldRow)
    requires g in FirstSeenOf(rows) && h in FirstSeenOf(rows) && SnapshotOf(g) != SnapshotOf(h)
    ensures g.bike != h.bike
  {
  }

  /** A chunk's new bikes are exactly the first sightings between the frontier and the chunk's end. */
  lemma NewBikesAreNextDays(silver: set<Rental>, mark: Day, frontier: Day, end: Day, g: GoldRow)
    requires OwnPartition(silver) && mark <= frontier
    requires forall r | r in silver :: mark < r.day || r.bike in BikesOf(UpTo(FirstSeenOf(silver), frontier))
    ensures g in NewBikes(Between(silver, mark + 1, end), UpTo(FirstSeenOf(silver), frontier))
       <==> g in FirstSeenOf(silver) && frontier < SnapshotOf(g) <= end
  {
    var rows, gold := Between(silver, mark + 1, end), UpTo(FirstSeenOf(silver), frontier);
    if g in NewBikes(rows, gold) {
      var r :| r in rows && IsFirst(rows, r) && g == GoldRow(r.bike, r.at);
      forall q | q in silver && q.bike == r.bike ensures r.at <= q.at {
        if q.day <= frontier {
          KnownBikes(silver, frontier, q);
        }
        assert frontier < q.day;
        if q.day <= end {
          assert q in rows;
        }
      }
      if r.day <= frontier {
        KnownBikes(silver, frontier, r);
      }
    }
    if g in FirstSeenOf(silver) && frontier < SnapshotOf(g) <= end {
      var r :| r in silver && IsFirst(silver, r) && g == GoldRow(r.bike, r.at);
      assert r in rows && IsFirst(rows, r);
      forall h | h in gold ensures h.bike != g.bike {
        OtherDayOtherBike(silver, g, h);
      }
    }
  }

  lemma NextValue(values: seq<Day>, n: nat, frontier: Day, d: Day)
    requires Increasing(values) && 0 < n <= |values| && d in values
    requires (if n == 1 then frontier else values[n - 2]) < d && frontier < d
    ensures values[n - 1] <= d
  {
    var i :| 0 <= i < |values| && values[i] == d;
    if 1 < n {
      Ascending(values, Min(i, n - 2), n - 2);
    }
    Ascending(values, Min(i, n - 1), Max(i, n - 1));
  }

  lemma Ascending(values: seq<Day>, i: nat, j: nat)
    requires Increasing(values) && i <= j < |values|
    ensures values[i] <= values[j]
  {
  }

  /** Overwriting the first n new days moves the frontier to the last of them, losing nothing. */
  lemma {:induction false} WritesMoveTheFrontier(
    all: set<GoldRow>, frontier: Day, end: Day, added: set<GoldRow>, values: seq<Day>, n: nat)
    requires added == set g | g in all && frontier < SnapshotOf(g) <= end
    requires values == SortedDays(DaysOf(added)) && n <= |values|
    ensures WriteDays(UpTo(all, frontier), added, values, n)
         == UpTo(all, if n == 0 then frontier else values[n - 1])
    decreases n
  {
    if n > 0 {
      WritesMoveTheFrontier(all, frontier, end, added, values, n - 1);
      var before, v := if n == 1 then frontier else values[n - 2], values[n - 1];
      assert v in DaysOf(added) && (n > 1 ==> values[n - 2] in DaysOf(added));
      forall g | g in all && before < SnapshotOf(g) <= v ensures SnapshotOf(g) == v {
        assert g in added && SnapshotOf(g) in DaysOf(added);
        NextValue(values, n, frontier, SnapshotOf(g));
      }
      hide SortedDays, WriteDay, UpTo;
      OneMoreDay(all, frontier, end, added, before, v);
    }
  }

  lemma OneMoreDay(all: set<GoldRow>, frontier: Day, end: Day, added: set<GoldRow>, before: Day, v: Day)
    requires added == set g | g in all && frontier < SnapshotOf(g) <= end
    requires frontier <= before < v <= end
    requires forall g | g in all && before < SnapshotOf(g) <= v :: SnapshotOf(g) == v
    ensures WriteDay(UpTo(all, before), added, v) == UpTo(all, v)
  {
  }

  lemma NothingAfterTheLastDay(all: set<GoldRow>, frontier: Day, end: Day, added: set<GoldRow>, values: seq<Day>)
    requires added == (set g | g in all && frontier < SnapshotOf(g) <= end) && frontier <= end
    requires values == SortedDays(DaysOf(added))
    ensures UpTo(all, if values == [] then frontier else values[|values| - 1]) == UpTo(all, end)
  {
    forall g | g in all && frontier < SnapshotOf(g) <= end
      ensures values != [] && SnapshotOf(g) <= values[|values| - 1]
    {
      assert g in added && SnapshotOf(g) in DaysOf(added) && SnapshotOf(g) in values;
    }
    if values != [] {
      assert values[|values| - 1] in DaysOf(added);
    }
  }

  lemma AboveMeansAbove(silver: set<Rental>, st: State, frontier: Day)
    requires AllAbove(silver, st, frontier)
    ensures forall r | r in silver :: st.mark < r.day || r.bike in BikesOf(UpTo(FirstSeenOf(silver), frontier))
  {
  }

  /** One run, crashing or not, leaves the table at some frontier no lower than before; a completed run
      at least at its end. */
  lemma RunMovesTheFrontier(silver: set<Rental>, st: State, end: Day, budget: nat, frontier: Day) returns (frontier': Day)
    requires OwnPartition(silver) && Inv(silver, st, frontier)
    requires AllAbove(silver, st, frontier)
    ensures frontier <= frontier' && Inv(silver, RunOnce(silver, st, end, budget), frontier')
    ensures AllAbove(silver, RunOnce(silver, st, end, budget), frontier')
    ensures RunOnce(silver, st, end, budget).mark == end ==> end <= frontier'
  {
    hide NewBikes, FirstSeenOf, SortedDays, WriteDays, UpTo, AllAbove;
    var all := FirstSeenOf(silver);
    frontier' := frontier;
    if st.mark + 1 <= end {
      var added := NewBikes(Between(silver, st.mark + 1, end), st.gold);
      forall g ensures g in added <==> g in all && frontier < SnapshotOf(g) <= end {
        AboveMeansAbove(silver, st, frontier);
        NewBikesAreNextDays(silver, st.mark, frontier, end, g);
      }
      var values := SortedDays(DaysOf(added));
      var n := if budget < |values| then budget else |values|;
      WritesMoveTheFrontier(all, frontier, end, added, values, n);
      if n > 0 {
        assert values[n - 1] in DaysOf(added);
        frontier' := values[n - 1];
      }
      if budget > |values| && frontier <= end {
        NothingAfterTheLastDay(all, frontier, end, added, values);
        frontier' := end;
      }
    }
    AllStayAbove(silver, st, RunOnce(silver, st, end, budget), frontier, frontier');
  }

  /** No rental is overlooked: each is above the watermark or its bike is already known. */
  ghost predicate AllAbove(silver: set<Rental>, st: State, frontier: Day) {
    forall r | r in silver :: st.mark < r.day || r.bike in BikesOf(UpTo(FirstSeenOf(silver), frontier))
  }

  lemma AllStayAbove(silver: set<Rental>, st: State, st': State, frontier: Day, frontier': Day)
    requires OwnPartition(silver) && AllAbove(silver, st, frontier) && frontier <= frontier' && st'.mark <= frontier'
    ensures AllAbove(silver, st', frontier')
  {
    forall r | r in silver && r.day <= st'.mark
      ensures r.bike in BikesOf(UpTo(FirstSeenOf(silver), frontier'))
    {
      KnownBikes(silver, frontier', r);
    }
  }

  lemma {:induction false} RunsMoveTheFrontier(silver: set<Rental>, st: State, runs: seq<(Day, nat)>, frontier: Day)
    returns (frontier': Day)
    requires OwnPartition(silver) && Inv(silver, st, frontier) && AllAbove(silver, st, frontier)
    ensures frontier <= frontier' && Inv(silver, RunAll(silver, st, runs), frontier')
    decreases |runs|
  {
    if runs == [] {
      frontier' := frontier;
    } else {
      var middle := RunMovesTheFrontier(silver, st, runs[0].0, runs[0].1, frontier);
      frontier' := RunsMoveTheFrontier(silver, RunOnce(silver, st, runs[0].0, runs[0].1), runs[1..], middle);
    }
  }

  /** Main result: however Silver is cut into runs, and wherever they crash and are retried, once the
      watermark has passed the last partition the table is the global first sighting of every bike, with
      no bike lost or repeated. `origin` is the watermark of the empty table. */
  lemma AnyChunkingFindsTheMinimum(silver: set<Rental>, origin: Day, runs: seq<(Day, nat)>)
    requires OwnPartition(silver) && forall r | r in silver :: origin < r.day
    requires forall r | r in silver :: r.day <= RunAll(silver, State({}, origin), runs).mark
    ensures RunAll(silver, State({}, origin), runs).gold == FirstSeenOf(silver)
    ensures forall g, h | g in FirstSeenOf(silver) && h in FirstSeenOf(silver) && g.bike == h.bike :: g == h
    ensures forall r | r in silver :: r.bike in BikesOf(FirstSeenOf(silver))
  {
    var start := State({}, origin);
    forall g | g in FirstSeenOf(silver) ensures origin < SnapshotOf(g) {
    }
    assert UpTo(FirstSeenOf(silver), origin) == {};
    var frontier := RunsMoveTheFrontier(silver, start, runs, origin);
    forall g | g in FirstSeenOf(silver) ensures SnapshotOf(g) <= frontier {
    }
    forall r | r in silver ensures r.bike in BikesOf(FirstSeenOf(silver)) {
      KnownBikes(silver, r.day, r);
      var g :| g in UpTo(FirstSeenOf(silver), r.day) && g.bike == r.bike;
    }
  }

  // ---------------------------------------------------------------- the job

  class DimBike {
    var gold: set<GoldRow>
    var mark: Day

    constructor (origin: Day)
      ensures gold == {} && mark == origin
    {
      gold, mark := {}, origin;
    }

    /** Dies after `budget` writes, if it needs more: also when the checks on the finished table fail,
        which leaves every overwrite and the old watermark. */
    method RunJob(silver: set<Rental>, end: Day, budget: nat) returns (finished: bool)
      modifies this
      ensures State(gold, mark) == RunOnce(silver, State(old(gold), old(mark)), end, budget)
      ensures mark == if finished then Max(old(mark), end) else old(mark)
    {
      var start := mark + 1;
      if start > end {
        return true;
      }
      var added := NewBikes(Between(silver, start, end), gold);
      var values := SortedDays(DaysOf(added));
      var left := budget;
      for i := 0 to |values|
        invariant left == budget - i && i <= budget
        invariant gold == WriteDays(old(gold), added, values, i) && mark == old(mark)
      {
        if left == 0 {
          return false;
        }
        gold := WriteDay(gold, added, values[i]);
        left := left - 1;
      }
      if left == 0 {
        return false;
      }
      mark := end;
      return true;
    }
  }
}
