/** Incremental "latest value per bike" tables: the last returned location
    (pipeline/collection_priority/jobs/build_bike_location.py) and the last collect or deploy action
    (pipeline/collection_priority/jobs/build_fact_station_inventory.py). */
module LatestState {
  import opened Basics

  datatype EventKind = Return | Collect | Deploy | OtherKind

  /** What an event says: a return's station, or an action's type and station. */
  datatype Value = Value(kind: EventKind, station: Option<string>)

  /** An event of source partition `day`. */
  datatype Row = Row(bike: string, day: Day, at: Option<int>, value: Value)

  /** A stored bike; without a time there is no value either. */
  datatype Cell = Cell(value: Option<Value>, at: Option<int>)

  /** Days read by one run; no lower bound for a cold start of the action table. */
  datatype Interval = Interval(start: Option<Day>, end: Day) {
    predicate Has(d: Day) {
      (start.None? || start.value <= d) && d <= end
    }
  }

  /** The stored table and its common snapshot_date. `seen` (rows ever read), `scans` (days ever read)
      and `cold` (where the last cold start began) are bookkeeping. */
  datatype State = State(
    cells: map<string, Cell>, snapshot: Option<Day>, seen: set<Row>, scans: seq<Interval>, cold: Option<Day>)

  /** One run: its date, whether it reads through that date (T0), the source as it finds it, and the
      row that row_number ranks first for each bike. */
  datatype Input = Input(date: Day, today: bool, source: set<Row>, delta: map<string, Row>)

  // ---------------------------------------------------------------- one run

  /** From the stored snapshot date on; a cold start goes back `lookback` days, or all the way. */
  function ScanOf(st: State, input: Input, lookback: Option<int>): Interval {
    var end := if input.today then input.date else input.date - 1;
    if st.snapshot.Some? then Interval(st.snapshot, end)
    else if lookback.Some? then Interval(Some(end - (lookback.value - 1)), end)
    else Interval(None, end)
  }

  function Read(source: set<Row>, scan: Interval): set<Row> {
    set r | r in source && scan.Has(r.day)
  }

  /** NULLS LAST: a row with a time comes before one without. */
  predicate NotAfter(a: Option<int>, b: Option<int>) {
    b.None? || (a.Some? && b.value <= a.value)
  }

  /** One row per bike, none of whose rows has a later time; ties may fall either way. */
  ghost predicate IsDelta(rows: set<Row>, delta: map<string, Row>) {
    && (forall r | r in rows :: r.bike in delta)
    && (forall b | b in delta :: delta[b] in rows && delta[b].bike == b)
    && (forall r | r in rows :: NotAfter(delta[r.bike].at, r.at))
  }

  /** Whatever a run reads, the engine has such a choice. */
  lemma {:induction false} DeltaExists(rows: set<Row>) returns (delta: map<string, Row>)
    ensures IsDelta(rows, delta)
    decreases |rows|
  {
    if rows == {} {
      delta := map[];
    } else {
      var r :| r in rows;
      var rest := DeltaExists(rows - {r});
      delta := if r.bike in rest && NotAfter(rest[r.bike].at, r.at) then rest else rest[r.bike := r];
      forall q | q in rows ensures q.bike in delta && NotAfter(delta[q.bike].at, q.at) {
        assert q == r || q in rows - {r};
      }
    }
  }

  function MergeCell(base: Option<Cell>, delta: Option<Row>): Cell {
    var stored := base.GetOr(Cell(None, None));
    if delta.Some? && delta.value.at.Some? && (stored.at.None? || delta.value.at.value > stored.at.value)
    then Cell(Some(delta.value.value), delta.value.at) else stored
  }

  function Lookup<K, V>(m: map<K, V>, k: K): Option<V> {
    if k in m then Some(m[k]) else None
  }

  function Merge(cells: map<string, Cell>, delta: map<string, Row>): map<string, Cell> {
    map b | b in cells.Keys + delta.Keys :: MergeCell(Lookup(cells, b), Lookup(delta, b))
  }

  /** The run overwrites the table; an empty result leaves no snapshot date behind. */
  function Apply(st: State, input: Input, lookback: Option<int>): State {
    var scan := ScanOf(st, input, lookback);
    var cells := Merge(st.cells, input.delta);
    State(cells, if cells == map[] then None else Some(input.date), st.seen + Read(input.source, scan),
          st.scans + [scan], if st.snapshot.None? then scan.start else st.cold)
  }

  ghost predicate ValidRun(st: State, input: Input, lookback: Option<int>) {
    IsDelta(Read(input.source, ScanOf(st, input, lookback)), input.delta)
  }

  ghost function ApplyAll(st: State, inputs: seq<Input>, lookback: Option<int>): State
    decreases |inputs|
  {
    if inputs == [] then st else ApplyAll(Apply(st, inputs[0], lookback), inputs[1..], lookback)
  }

  ghost predicate ValidRuns(st: State, inputs: seq<Input>, lookback: Option<int>)
    decreases |inputs|
  {
    inputs != [] ==>
      ValidRun(st, inputs[0], lookback) && ValidRuns(Apply(st, inputs[0], lookback), inputs[1..], lookback)
  }

  // ---------------------------------------------------------------- what the table means

  /** The cell of `bike` after reading `seen`: the greatest time, with the value of a row attaining it;
      null when no row has a time. */
  ghost predicate IsLatest(seen: set<Row>, bike: string, cell: Cell) {
    && (forall r | r in seen && r.bike == bike && r.at.Some? :: cell.at.Some? && r.at.value <= cell.at.value)
    && (cell.at.Some? ==> exists r | r in seen :: r.bike == bike && r.at == cell.at && Some(r.value) == cell.value)
    && (cell.at.None? ==> cell.value.None?)
  }

  ghost predicate Scanned(scans: seq<Interval>, d: Day) {
    exists i :: 0 <= i < |scans| && scans[i].Has(d)
  }

  ghost predicate Inv(st: State) {
    && (forall r | r in st.seen :: r.bike in st.cells)
    && (forall b | b in st.cells :: exists r | r in st.seen :: r.bike == b)
    && (forall b | b in st.cells :: IsLatest(st.seen, b, st.cells[b]))
    && (st.snapshot.None? <==> st.cells == map[])
    && (st.snapshot.Some? ==>
          forall d | (st.cold.None? || st.cold.value <= d) && d < st.snapshot.value :: Scanned(st.scans, d))
  }

  lemma MergedIsLatest(seen: set<Row>, rows: set<Row>, cells: map<string, Cell>, delta: map<string, Row>, bike: string)
    requires IsDelta(rows, delta)
    requires forall r | r in seen :: r.bike in cells
    requires bike in cells ==> IsLatest(seen, bike, cells[bike])
    ensures IsLatest(seen + rows, bike, MergeCell(Lookup(cells, bike), Lookup(delta, bike)))
  {
    var cell := MergeCell(Lookup(cells, bike), Lookup(delta, bike));
    forall r | r in seen + rows && r.bike == bike && r.at.Some?
      ensures cell.at.Some? && r.at.value <= cell.at.value
    {
      if r in rows {
        assert NotAfter(delta[bike].at, r.at);
      }
    }
    if cell.at.Some? {
      if bike in delta && cell == Cell(Some(delta[bike].value), delta[bike].at) {
        assert delta[bike] in seen + rows;
      } else {
        var r :| r in seen && r.bike == bike && r.at == cell.at && Some(r.value) == cell.value;
        assert r in seen + rows;
      }
    }
  }

  /** A stored bike changes only for a strictly later event, and then to that event; equal times keep what
      is stored. */
  lemma ChangesOnlyForLater(cells: map<string, Cell>, delta: map<string, Row>, bike: string)
    requires bike in cells
    ensures bike in Merge(cells, delta)
    ensures var later := bike in delta && delta[bike].at.Some?
                         && (cells[bike].at.None? || cells[bike].at.value < delta[bike].at.value);
            Merge(cells, delta)[bike] == if later then Cell(Some(delta[bike].value), delta[bike].at) else cells[bike]
  {
  }

  lemma ScansStay(scans: seq<Interval>, scan: Interval, d: Day)
    ensures Scanned(scans + [scan], d) <==> Scanned(scans, d) || scan.Has(d)
  {
    if Scanned(scans, d) {
      var i :| 0 <= i < |scans| && scans[i].Has(d);
      assert (scans + [scan])[i].Has(d);
    }
    if scan.Has(d) {
      assert (scans + [scan])[|scans|].Has(d);
    }
  }

  lemma ApplyKeepsCells(st: State, input: Input, lookback: Option<int>)
    requires Inv(st) && ValidRun(st, input, lookback)
    ensures var st' := Apply(st, input, lookback);
            && (forall r | r in st'.seen :: r.bike in st'.cells)
            && (forall b | b in st'.cells :: exists r | r in st'.seen :: r.bike == b)
            && (forall b | b in st'.cells :: IsLatest(st'.seen, b, st'.cells[b]))
  {
    var rows := Read(input.source, ScanOf(st, input, lookback));
    var st' := Apply(st, input, lookback);
    forall b | b in st'.cells
      ensures IsLatest(st'.seen, b, st'.cells[b])
      ensures exists r | r in st'.seen :: r.bike == b
    {
      MergedIsLatest(st.seen, rows, st.cells, input.delta, b);
      if b in st.cells {
        var r :| r in st.seen && r.bike == b;
        assert r in st'.seen;
      } else {
        assert input.delta[b] in st'.seen;
      }
    }
  }

  lemma ApplyKeepsInv(st: State, input: Input, lookback: Option<int>)
    requires Inv(st) && ValidRun(st, input, lookback)
    ensures Inv(Apply(st, input, lookback))
  {
    hide IsLatest, Merge;
    ApplyKeepsCells(st, input, lookback);
    var st', scan := Apply(st, input, lookback), ScanOf(st, input, lookback);
    if st'.snapshot.Some? {
      forall d | (st'.cold.None? || st'.cold.value <= d) && d < st'.snapshot.value ensures Scanned(st'.scans, d) {
        ScansStay(st.scans, scan, d);
      }
    }
  }

  /** Main result: for any sequence of runs (dates with gaps, repeated or out of order, T0 or not),
      each stored time is the maximum over every row ever read, its station or action is that of a row
      attaining it, and every day from the cold start to the day before the stored snapshot date has
      been read. */
  lemma {:induction false} TableIsLatestOfEverythingRead(st: State, inputs: seq<Input>, lookback: Option<int>)
    requires Inv(st) && ValidRuns(st, inputs, lookback)
    ensures Inv(ApplyAll(st, inputs, lookback))
    decreases |inputs|
  {
    if inputs != [] {
      ApplyKeepsInv(st, inputs[0], lookback);
      TableIsLatestOfEverythingRead(Apply(st, inputs[0], lookback), inputs[1..], lookback);
    }
  }

  // ---------------------------------------------------------------- which days are read

  function NewTable(): State {
    State(map[], None, {}, [], None)
  }

  /** The first run reads exactly the look-back's days: n days ending yesterday, or today with T0; all
      days up to then when there is no look-back. */
  lemma FirstRunReads(first: Input, lookback: Option<int>, r: Row)
    ensures var read := Apply(NewTable(), first, lookback).seen;
            && (lookback.Some? && !first.today ==>
                  (r in read <==> r in first.source && first.date - lookback.value <= r.day <= first.date - 1))
            && (lookback.Some? && first.today ==>
                  (r in read <==> r in first.source && first.date - lookback.value + 1 <= r.day <= first.date))
            && (lookback.None? ==>
                  (r in read <==> r in first.source && r.day <= (if first.today then first.date else first.date - 1)))
  {
  }

  /** A later run reads everything from the stored snapshot date through its own end. */
  lemma LaterRunReads(st: State, input: Input, lookback: Option<int>, r: Row)
    requires st.snapshot.Some? && r in input.source && st.snapshot.value <= r.day
    ensures r.day < input.date || (input.today && r.day == input.date) ==> r in Apply(st, input, lookback).seen
    ensures r in Apply(st, input, lookback).seen ==>
      r in st.seen || r.day < input.date || (input.today && r.day == input.date)
  {
  }

  lemma StaysFilled(st: State, input: Input, lookback: Option<int>)
    requires Inv(st) && st.snapshot.Some?
    ensures Apply(st, input, lookback).snapshot == Some(input.date) && Apply(st, input, lookback).cold == st.cold
  {
    hide IsLatest;
    var b :| b in st.cells;
    assert b in Apply(st, input, lookback).cells;
  }

  lemma {:induction false} ColdStays(st: State, inputs: seq<Input>, lookback: Option<int>)
    requires Inv(st) && st.snapshot.Some? && ValidRuns(st, inputs, lookback)
    ensures ApplyAll(st, inputs, lookback).cold == st.cold
    ensures ApplyAll(st, inputs, lookback).snapshot == if inputs == [] then st.snapshot else Some(inputs[|inputs| - 1].date)
    decreases |inputs|
  {
    hide Apply, Inv, ValidRun;
    if inputs != [] {
      ApplyKeepsInv(st, inputs[0], lookback);
      StaysFilled(st, inputs[0], lookback);
      ColdStays(Apply(st, inputs[0], lookback), inputs[1..], lookback);
    }
  }

  /** Main result on coverage, in dates: once a first run dated D found anything, then after any further
      runs every day from D - n (or D - n + 1 with T0; from the beginning without a look-back) to the day
      before the last run's date has been read. */
  lemma NoDayIsSkipped(first: Input, later: seq<Input>, lookback: Option<int>, d: Day)
    requires ValidRuns(NewTable(), [first] + later, lookback) && first.delta != map[]
    requires lookback.Some? ==> first.date - lookback.value + (if first.today then 1 else 0) <= d
    requires d < ([first] + later)[|later|].date
    ensures Scanned(ApplyAll(NewTable(), [first] + later, lookback).scans, d)
    ensures ApplyAll(NewTable(), [first] + later, lookback).snapshot == Some(([first] + later)[|later|].date)
  {
    hide Apply, Inv, ValidRun, NewTable;
    assert ([first] + later)[1..] == later;
    FirstRunFills(first, lookback);
    ColdStays(Apply(NewTable(), first, lookback), later, lookback);
    TableIsLatestOfEverythingRead(Apply(NewTable(), first, lookback), later, lookback);
    ReadThrough(ApplyAll(NewTable(), [first] + later, lookback), d);
  }

  lemma ReadThrough(st: State, d: Day)
    requires Inv(st) && st.snapshot.Some? && (st.cold.None? || st.cold.value <= d) && d < st.snapshot.value
    ensures Scanned(st.scans, d)
  {
  }

  lemma FirstRunFills(first: Input, lookback: Option<int>)
    requires ValidRun(NewTable(), first, lookback) && first.delta != map[]
    ensures Inv(Apply(NewTable(), first, lookback))
    ensures Apply(NewTable(), first, lookback).snapshot == Some(first.date)
    ensures Apply(NewTable(), first, lookback).cold
         == if lookback.None? then None else Some(first.date - lookback.value + (if first.today then 1 else 0))
  {
    hide IsLatest, IsDelta;
    ApplyKeepsInv(NewTable(), first, lookback);
    var b :| b in first.delta;
    assert b in Apply(NewTable(), first, lookback).cells;
  }

  // ---------------------------------------------------------------- against a frozen source

  ghost predicate SeenIsScanned(st: State, source: set<Row>) {
    forall r :: r in st.seen <==> r in source && Scanned(st.scans, r.day)
  }

  lemma {:induction false} SeenTracksScans(st: State, inputs: seq<Input>, lookback: Option<int>, source: set<Row>)
    requires SeenIsScanned(st, source) && forall i | 0 <= i < |inputs| :: inputs[i].source == source
    ensures SeenIsScanned(ApplyAll(st, inputs, lookback), source)
    decreases |inputs|
  {
    if inputs != [] {
      var st', scan := Apply(st, inputs[0], lookback), ScanOf(st, inputs[0], lookback);
      forall r ensures r in st'.seen <==> r in source && Scanned(st'.scans, r.day) {
        ScansStay(st.scans, scan, r.day);
      }
      SeenTracksScans(st', inputs[1..], lookback, source);
    }
  }

  /** On a source that does not change, the incremental table is the one a single full scan of the days
      read would give. */
  lemma IncrementalEqualsFullScan(inputs: seq<Input>, lookback: Option<int>, source: set<Row>, bike: string)
    requires ValidRuns(NewTable(), inputs, lookback) && forall i | 0 <= i < |inputs| :: inputs[i].source == source
    ensures var st := ApplyAll(NewTable(), inputs, lookback);
            var rows := set r | r in source && Scanned(st.scans, r.day);
            && (bike in st.cells <==> exists r | r in rows :: r.bike == bike)
            && (bike in st.cells ==> IsLatest(rows, bike, st.cells[bike]))
  {
    var start := NewTable();
    TableIsLatestOfEverythingRead(start, inputs, lookback);
    SeenTracksScans(start, inputs, lookback, source);
    var st := ApplyAll(start, inputs, lookback);
    assert st.seen == set r | r in source && Scanned(st.scans, r.day);
  }

  lemma LatestTimeIsUnique(seen: set<Row>, bike: string, c: Cell, d: Cell)
    requires IsLatest(seen, bike, c) && IsLatest(seen, bike, d)
    ensures c.at == d.at
  {
    if c.at.Some? {
      var r :| r in seen && r.bike == bike && r.at == c.at;
    }
    if d.at.Some? {
      var r :| r in seen && r.bike == bike && r.at == d.at;
    }
  }

  lemma SameBikes(a: State, b: State, bike: string)
    requires Inv(a) && Inv(b) && a.seen == b.seen && bike in a.cells
    ensures bike in b.cells
  {
    var r :| r in a.seen && r.bike == bike;
  }

  /** The bikes and their times are a function of what has been read, however it was split into runs. */
  lemma TimesDependOnSeenOnly(a: State, b: State)
    requires Inv(a) && Inv(b) && a.seen == b.seen
    ensures a.cells.Keys == b.cells.Keys
    ensures forall bike | bike in a.cells :: a.cells[bike].at == b.cells[bike].at
  {
    hide IsLatest;
    forall bike ensures bike in a.cells <==> bike in b.cells {
      if bike in a.cells {
        SameBikes(a, b, bike);
      } else if bike in b.cells {
        SameBikes(b, a, bike);
      }
    }
    forall bike | bike in a.cells ensures a.cells[bike].at == b.cells[bike].at {
      LatestTimeIsUnique(a.seen, bike, a.cells[bike], b.cells[bike]);
    }
  }

  lemma RerunReadsNothingNew(st: State, input: Input, again: Input, lookback: Option<int>)
    requires Inv(st) && st.snapshot.Some? && st.snapshot.value <= input.date
    requires again.source == input.source && again.date == input.date && again.today == input.today
    ensures Apply(Apply(st, input, lookback), again, lookback).seen == Apply(st, input, lookback).seen
  {
    var once := Apply(st, input, lookback);
    var bike :| bike in st.cells;
    assert bike in once.cells;
    forall r | r in Read(again.source, ScanOf(once, again, lookback)) ensures r in once.seen {
    }
  }

  /** Running a date again on an unchanged source changes no stored time. */
  lemma RerunKeepsTimes(st: State, input: Input, again: Input, lookback: Option<int>)
    requires Inv(st) && st.snapshot.Some? && st.snapshot.value <= input.date && ValidRun(st, input, lookback)
    requires again.source == input.source && again.date == input.date && again.today == input.today
    requires ValidRun(Apply(st, input, lookback), again, lookback)
    ensures Apply(Apply(st, input, lookback), again, lookback).cells.Keys == Apply(st, input, lookback).cells.Keys
    ensures forall bike | bike in Apply(st, input, lookback).cells ::
      Apply(Apply(st, input, lookback), again, lookback).cells[bike].at == Apply(st, input, lookback).cells[bike].at
  {
    ApplyKeepsInv(st, input, lookback);
    ApplyKeepsInv(Apply(st, input, lookback), again, lookback);
    RerunReadsNothingNew(st, input, again, lookback);
    hide Apply, Inv;
    TimesDependOnSeenOnly(Apply(st, input, lookback), Apply(Apply(st, input, lookback), again, lookback));
  }

  // ---------------------------------------------------------------- the stored table

  const LOCATION_LOOKBACK: Option<int> := Some(30)
  const ACTION_LOOKBACK: Option<int> := None

  /** A new location table reads the 30 days before its date, or the 30 ending with it under T0; a new
      action table everything. */
  lemma NewTablesRead(first: Input, r: Row)
    ensures !first.today ==>
      (r in Apply(NewTable(), first, LOCATION_LOOKBACK).seen <==> r in first.source && first.date - 30 <= r.day < first.date)
    ensures first.today ==>
      (r in Apply(NewTable(), first, LOCATION_LOOKBACK).seen <==> r in first.source && first.date - 30 < r.day <= first.date)
    ensures !first.today ==>
      (r in Apply(NewTable(), first, ACTION_LOOKBACK).seen <==> r in first.source && r.day < first.date)
  {
  }

  /** gold.bike_location with LOCATION_LOOKBACK, gold.bike_last_action with ACTION_LOOKBACK. */
  class LatestTable {
    const lookback: Option<int>
    var cells: map<string, Cell>
    var snapshot: Option<Day>
    ghost var seen: set<Row>
    ghost var scans: seq<Interval>
    ghost var cold: Option<Day>

    ghost function View(): State
      reads this
    {
      State(cells, snapshot, seen, scans, cold)
    }

    constructor (lookback: Option<int>)
      ensures this.lookback == lookback && View() == NewTable()
    {
      this.lookback, cells, snapshot, seen, scans, cold := lookback, map[], None, {}, [], None;
    }

    method Refresh(date: Day, today: bool, source: set<Row>, delta: map<string, Row>)
      requires ValidRun(View(), Input(date, today, source, delta), lookback)
      modifies this
      ensures View() == Apply(old(View()), Input(date, today, source, delta), lookback)
    {
      ghost var st := View();
      var merged := Merge(cells, delta);
      ghost var scan := ScanOf(st, Input(date, today, source, delta), lookback);
      seen, scans := seen + Read(source, scan), scans + [scan];
      cold := if snapshot.None? then scan.start else cold;
      snapshot := if merged == map[] then None else Some(date);
      cells := merged;
    }
  }
}
