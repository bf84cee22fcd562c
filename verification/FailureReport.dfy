/** Failure reports: a 31-day window recomputed every run, an older backlog that advances the
    watermark, and their agreement with a rebuild from all of Bronze
    (staging/jobs/silver_failure_report.py). */
module FailureReport {
  import opened Basics
  import opened IcebergTable
  import Watermark

  /** A Bronze row of request partition `declared`; `copy` tells equal rows apart. */
  datatype BronzeRow = BronzeRow(declared: Day, bike: Option<string>, reported: Option<Day>, kind: Option<string>, copy: nat)

  datatype SilverRow = SilverRow(bike: string, reported: Day, kind: string)

  datatype Error = RequiredColumnNull | TooManyFuture | ReversedRange

  const SLIDING_WINDOW_DAYS := 31
  const BRONZE_LOOKBACK_DAYS := 30
  const DEFAULT_MAX_DAYS_PER_RUN := 70

  // ---------------------------------------------------------------- one range

  predicate Complete(r: BronzeRow) {
    r.bike.Some? && r.reported.Some? && r.kind.Some?
  }

  function Report(r: BronzeRow): SilverRow
    requires Complete(r)
  {
    SilverRow(r.bike.value, r.reported.value, r.kind.value)
  }

  function Requested(bronze: set<BronzeRow>, from: Day, last: Day): set<BronzeRow> {
    set r | r in bronze && from <= r.declared <= last
  }

  function Future(rows: set<BronzeRow>, cutoff: Day): set<BronzeRow> {
    set r | r in rows && Complete(r) && r.reported.value > cutoff
  }

  /** _split_future_rows, _filter_report_date_range and dedupe: distinct reports of the range. */
  function CleanRange(rows: set<BronzeRow>, cutoff: Day, from: Day, last: Day): set<SilverRow> {
    set r | r in rows && Complete(r) && r.reported.value <= cutoff && from <= r.reported.value <= last :: Report(r)
  }

  /** The range's reports, read with the look-back. */
  function CleanOf(bronze: set<BronzeRow>, from: Day, last: Day, cutoff: Day): set<SilverRow> {
    CleanRange(Requested(bronze, from - BRONZE_LOOKBACK_DAYS, last), cutoff, from, last)
  }

  datatype Output = Output(clean: set<SilverRow>, quarantine: set<BronzeRow>)

  predicate TooMany(future: nat, total: nat, maxRatio: real)
    requires future <= total
  {
    future > 0 && future as real / total as real > maxRatio
  }

  /** Everything _process_range computes before its first write. */
  function Compute(bronze: set<BronzeRow>, from: Day, last: Day, cutoff: Day, maxRatio: real): Result<Output, Error> {
    var rows := Requested(bronze, from - BRONZE_LOOKBACK_DAYS, last);
    var future := Future(rows, cutoff);
    SubsetIsSmaller(future, rows);
    if exists r | r in rows :: !Complete(r) then Err(RequiredColumnNull)
    else if TooMany(|future|, |rows|, maxRatio) then Err(TooManyFuture)
    else Ok(Output(CleanOf(bronze, from, last, cutoff), future))
  }

  lemma {:induction false} SubsetIsSmaller<T>(a: set<T>, b: set<T>)
    requires a <= b
    ensures |a| <= |b|
    decreases |a|
  {
    if a != {} {
      var x :| x in a;
      SubsetIsSmaller(a - {x}, b - {x});
    }
  }

  function ReportedOn(r: SilverRow): Day {
    r.reported
  }

  function DeclaredOn(r: BronzeRow): Day {
    r.declared
  }

  // ---------------------------------------------------------------- agreement with a full rebuild

  /** The API answers request day R with reports from R through R + 30. */
  ghost predicate Lookback(bronze: set<BronzeRow>) {
    forall r | r in bronze && r.reported.Some? :: r.declared <= r.reported.value <= r.declared + BRONZE_LOOKBACK_DAYS
  }

  /** Silver as a rebuild from all of Bronze would make it. */
  function Rebuild(bronze: set<BronzeRow>): set<SilverRow> {
    set r | r in bronze && Complete(r) :: Report(r)
  }

  /** A range computed from its own request partitions and their 30-day look-back is the full rebuild
      restricted to the range. */
  lemma RangeIsRebuild(bronze: set<BronzeRow>, from: Day, last: Day, cutoff: Day)
    requires Lookback(bronze) && last <= cutoff
    ensures CleanOf(bronze, from, last, cutoff)
         == set r | r in Rebuild(bronze) && from <= r.reported <= last
  {
    var rows := Requested(bronze, from - BRONZE_LOOKBACK_DAYS, last);
    forall b | b in bronze && Complete(b) && from <= b.reported.value <= last ensures b in rows {
    }
  }

  /** Some request within the look-back window delivered the report. */
  ghost predicate DeliveredInTime(bronze: set<BronzeRow>, s: SilverRow) {
    exists r | r in bronze && Complete(r) :: Report(r) == s && r.declared <= s.reported <= r.declared + BRONZE_LOOKBACK_DAYS
  }

  ghost predicate RangeAgrees(bronze: set<BronzeRow>, from: Day, last: Day, cutoff: Day) {
    CleanOf(bronze, from, last, cutoff)
    == set r | r in Rebuild(bronze) && from <= r.reported <= last
  }

  /** What the look-back needs, exactly: every range agrees with the full rebuild if and only if every
      report was delivered by some request no later than its date and at most 30 days before it. */
  lemma RangesAgreeIff(bronze: set<BronzeRow>)
    ensures (forall from, last, cutoff :: last <= cutoff ==> RangeAgrees(bronze, from, last, cutoff))
       <==> (forall s | s in Rebuild(bronze) :: DeliveredInTime(bronze, s))
  {
    forall s | s in Rebuild(bronze)
      ensures RangeAgrees(bronze, s.reported, s.reported, s.reported) ==> DeliveredInTime(bronze, s)
    {
      var d := s.reported;
      if RangeAgrees(bronze, d, d, d) {
        assert s in CleanRange(Requested(bronze, d - BRONZE_LOOKBACK_DAYS, d), d, d, d);
        var r :| r in Requested(bronze, d - BRONZE_LOOKBACK_DAYS, d) && Complete(r) && Report(r) == s;
      }
    }
    if forall s | s in Rebuild(bronze) :: DeliveredInTime(bronze, s) {
      forall from, last, cutoff | last <= cutoff ensures RangeAgrees(bronze, from, last, cutoff) {
        forall s | s in Rebuild(bronze) && from <= s.reported <= last
          ensures s in CleanOf(bronze, from, last, cutoff)
        {
          assert DeliveredInTime(bronze, s);
          var r :| r in bronze && Complete(r) && Report(r) == s && r.declared <= s.reported <= r.declared + BRONZE_LOOKBACK_DAYS;
          assert r in Requested(bronze, from - BRONZE_LOOKBACK_DAYS, last);
        }
      }
    }
  }

  /** And a shorter look-back would not be enough: a report can sit in the oldest partition alone. */
  lemma LookbackIsTight(from: Day, bike: string, kind: string)
    ensures var r := BronzeRow(from - BRONZE_LOOKBACK_DAYS, Some(bike), Some(from), Some(kind), 0);
            && Lookback({r}) && Rebuild({r}) == {Report(r)}
            && CleanRange(Requested({r}, from - (BRONZE_LOOKBACK_DAYS - 1), from), from, from, from) == {}
  {
    var r := BronzeRow(from - BRONZE_LOOKBACK_DAYS, Some(bike), Some(from), Some(kind), 0);
    assert Report(r) in Rebuild({r});
  }

  // ---------------------------------------------------------------- which ranges a run processes

  function ConfirmedRange(silver: Day, end: Day, maxDays: Option<int>): Option<Range> {
    if silver + 1 > end then None
    else Some(Range(silver + 1, Min(end, silver + maxDays.GetOr(DEFAULT_MAX_DAYS_PER_RUN))))
  }

  function ResolveCutoff(bronzeMax: Option<Day>, bronzeMark: Day, pinned: Option<Day>): Day {
    if pinned.Some? then pinned.value else if bronzeMax.None? then bronzeMark else Max(bronzeMax.value, bronzeMark)
  }

  function SlidingWindow(cutoff: Day): Range {
    Range(cutoff - (SLIDING_WINDOW_DAYS - 1), cutoff)
  }

  function BacklogRange(silver: Day, bronzeMark: Day, windowStart: Day, maxDays: Option<int>): Option<Range> {
    ConfirmedRange(silver, Min(bronzeMark, windowStart - 1), maxDays)
  }

  // ---------------------------------------------------------------- runs

  /** The storage. `origin` is the day before the first one; request partitions up to `frozen` no longer
      change. Both are bookkeeping. */
  datatype Store = Store(
    origin: Day, bronze: set<BronzeRow>, frozen: Day, silver: set<SilverRow>, quarantine: set<BronzeRow>,
    bronzeMark: Day, silverMark: Day)

  datatype Phase = Reading | Computed(out: Output) | QuarantineWritten(out: Output) | BothWritten

  datatype Step =
    | ReadMarks
    | ReadCutoff(bronze: Day, silver: Day)
    | Backlog(range: Range, cutoff: Day, phase: Phase)
    | MoveMark(range: Range, cutoff: Day)
    | Window(cutoff: Day, phase: Phase)

  datatype Job = Job(pinned: Option<Day>, maxDays: Option<int>, maxRatio: real, step: Step)

  /** At most one run is active (airflow/dags/silver_failure_report_dag.py allows no second one). */
  datatype System = System(store: Store, job: Option<Job>)

  datatype Action =
    | Start(pinned: Option<Day>, maxDays: Option<int>, maxRatio: real)
    | Tick
    | Crash
    | CommitBronze(days: set<Day>, rows: set<BronzeRow>)
    | Freeze(through: Day)
    | MoveBronzeMark(day: Day)

  /** The newest request partition, if any. */
  ghost function MaxDeclared(bronze: set<BronzeRow>): (m: Option<Day>)
    ensures m.None? <==> bronze == {}
    ensures m.Some? ==> exists r | r in bronze :: r.declared == m.value
    ensures m.Some? ==> forall r | r in bronze :: r.declared <= m.value
  {
    if bronze == {} then None
    else
      HasMaximum(bronze);
      var newest :| newest in bronze && forall r | r in bronze :: r.declared <= newest.declared;
      Some(newest.declared)
  }

  lemma {:induction false} HasMaximum(rows: set<BronzeRow>)
    requires rows != {}
    ensures exists newest | newest in rows :: forall r | r in rows :: r.declared <= newest.declared
    decreases |rows|
  {
    var x :| x in rows;
    var rest := rows - {x};
    if rest == {} {
      assert rows == {x} + rest;
    } else {
      HasMaximum(rest);
      var y :| y in rest && forall r | r in rest :: r.declared <= y.declared;
      var newest := if x.declared <= y.declared then y else x;
      assert newest in rows;
      forall r | r in rows ensures r.declared <= newest.declared {
        assert r == x || r in rest;
      }
    }
  }

  /** Quarantine is replaced by the request days read, not by report day. */
  function WriteQuarantine(st: Store, range: Range, out: Output): Store {
    st.(quarantine :=
      ReplaceRange(st.quarantine, DeclaredOn, out.quarantine, range.start - BRONZE_LOOKBACK_DAYS, range.end))
  }

  function StepPhase(st: Store, job: Job, range: Range, cutoff: Day, phase: Phase): (Store, Option<Phase>) {
    match phase
    case Reading =>
      var result := Compute(st.bronze, range.start, range.end, cutoff, job.maxRatio);
      (st, if result.Ok? then Some(Computed(result.value)) else None)
    case Computed(out) =>
      (WriteQuarantine(st, range, out), Some(QuarantineWritten(out)))
    case QuarantineWritten(out) =>
      if range.start > range.end then (st, None)
      else (st.(silver := ReplaceRange(st.silver, ReportedOn, out.clean, range.start, range.end)), Some(BothWritten))
    case BothWritten => (st, Some(BothWritten))
  }

  ghost function StepJob(st: Store, job: Job): (Store, Option<Job>) {
    match job.step
    case ReadMarks => (st, Some(job.(step := ReadCutoff(st.bronzeMark, st.silverMark))))
    case ReadCutoff(bronze, silver) =>
      var cutoff := ResolveCutoff(MaxDeclared(st.bronze), bronze, job.pinned);
      var backlog := BacklogRange(silver, bronze, SlidingWindow(cutoff).start, job.maxDays);
      (st, Some(job.(step := if backlog.Some? then Backlog(backlog.value, cutoff, Reading) else Window(cutoff, Reading))))
    case Backlog(range, cutoff, phase) =>
      if phase.BothWritten? then (st, Some(job.(step := MoveMark(range, cutoff))))
      else
        var (st', phase') := StepPhase(st, job, range, cutoff, phase);
        (st', if phase'.None? then None else Some(job.(step := Backlog(range, cutoff, phase'.value))))
    case MoveMark(range, cutoff) => (st.(silverMark := range.end), Some(job.(step := Window(cutoff, Reading))))
    case Window(cutoff, phase) =>
      if phase.BothWritten? then (st, None)
      else
        var (st', phase') := StepPhase(st, job, SlidingWindow(cutoff), cutoff, phase);
        (st', if phase'.None? then None else Some(job.(step := Window(cutoff, phase'.value))))
  }

  predicate Enabled(sys: System, a: Action) {
    match a
    case Start(_, _, _) => sys.job.None?
    case Tick => sys.job.Some?
    case Crash => sys.job.Some?
    case CommitBronze(days, rows) =>
      (forall d | d in days :: d > sys.store.frozen) && (forall r | r in rows :: r.declared in days)
    case Freeze(through) => through >= sys.store.frozen
    case MoveBronzeMark(day) => sys.store.origin <= day <= sys.store.frozen
  }

  ghost function Next(sys: System, a: Action): System {
    if !Enabled(sys, a) then sys
    else
      match a
      case Start(pinned, maxDays, maxRatio) => sys.(job := Some(Job(pinned, maxDays, maxRatio, ReadMarks)))
      case Tick =>
        var (st, job) := StepJob(sys.store, sys.job.value);
        System(st, job)
      case Crash => sys.(job := None)
      case CommitBronze(days, rows) =>
        sys.(store := sys.store.(bronze := (set r | r in sys.store.bronze && r.declared !in days) + rows))
      case Freeze(through) => sys.(store := sys.store.(frozen := through))
      case MoveBronzeMark(day) => sys.(store := sys.store.(bronzeMark := day))
  }

  ghost function Run(sys: System, actions: seq<Action>): System
    decreases |actions|
  {
    if actions == [] then sys else Run(Next(sys, actions[0]), actions[1..])
  }

  // ---------------------------------------------------------------- what is promised

  ghost predicate Exact(st: Store, d: Day) {
    OnDay(st.silver, ReportedOn, d) == OnDay(Rebuild(st.bronze), ReportedOn, d)
  }

  ghost predicate ExactThrough(st: Store, mark: Day) {
    forall d | st.origin < d <= mark :: Exact(st, d)
  }

  ghost predicate Safe(st: Store) {
    ExactThrough(st, st.silverMark)
  }

  ghost predicate StoreInv(st: Store) {
    && Lookback(st.bronze)
    && st.origin <= st.silverMark <= st.frozen && st.origin <= st.bronzeMark <= st.frozen
    && Safe(st)
  }

  ghost predicate RightOutput(st: Store, range: Range, out: Output) {
    && Within(out.clean, ReportedOn, range.start, range.end)
    && (forall d | range.start <= d <= range.end && d <= st.silverMark ::
          OnDay(out.clean, ReportedOn, d) == OnDay(Rebuild(st.bronze), ReportedOn, d))
  }

  /** A backlog range lies right above the watermark, on frozen days, and its result is exact. */
  ghost predicate BacklogInv(st: Store, range: Range, phase: Phase) {
    && range.start == st.silverMark + 1 && range.end <= st.frozen
    && (match phase
        case Reading => true
        case Computed(out) => BacklogOutput(st, range, out)
        case QuarantineWritten(out) => BacklogOutput(st, range, out)
        case BothWritten => range.start <= range.end && ExactThrough(st, range.end))
  }

  ghost predicate BacklogOutput(st: Store, range: Range, out: Output) {
    && Within(out.clean, ReportedOn, range.start, range.end)
    && (forall d | range.start <= d <= range.end ::
          OnDay(out.clean, ReportedOn, d) == OnDay(Rebuild(st.bronze), ReportedOn, d))
  }

  ghost predicate JobInv(st: Store, job: Job) {
    match job.step
    case ReadMarks => true
    case ReadCutoff(bronze, silver) => bronze <= st.frozen && silver == st.silverMark
    case Backlog(range, cutoff, phase) => range.end <= cutoff && BacklogInv(st, range, phase)
    case MoveMark(range, _) => BacklogInv(st, range, BothWritten)
    case Window(cutoff, phase) =>
      match phase
      case Computed(out) => RightOutput(st, SlidingWindow(cutoff), out)
      case QuarantineWritten(out) => RightOutput(st, SlidingWindow(cutoff), out)
      case _ => true
  }

  ghost predicate Inv(sys: System) {
    StoreInv(sys.store) && (sys.job.Some? ==> JobInv(sys.store, sys.job.value))
  }

  /** The API keeps its promise about every new Bronze partition. */
  ghost predicate Honest(sys: System, actions: seq<Action>)
    decreases |actions|
  {
    actions != [] ==> Lookback(Next(sys, actions[0]).store.bronze) && Honest(Next(sys, actions[0]), actions[1..])
  }

  // ---------------------------------------------------------------- proofs

  lemma RebuildOn(bronze: set<BronzeRow>, from: Day, last: Day, cutoff: Day, d: Day)
    requires Lookback(bronze) && from <= d <= last <= cutoff
    ensures OnDay(CleanOf(bronze, from, last, cutoff), ReportedOn, d)
         == OnDay(Rebuild(bronze), ReportedOn, d)
  {
    RangeIsRebuild(bronze, from, last, cutoff);
  }

  /** A report of a frozen day comes from frozen partitions only. */
  lemma FrozenDaysKeepTheirReports(bronze: set<BronzeRow>, bronze': set<BronzeRow>, frozen: Day, d: Day)
    requires Lookback(bronze) && Lookback(bronze') && d <= frozen
    requires forall r: BronzeRow | r.declared <= frozen :: r in bronze <==> r in bronze'
    ensures OnDay(Rebuild(bronze), ReportedOn, d) == OnDay(Rebuild(bronze'), ReportedOn, d)
  {
    forall s ensures s in OnDay(Rebuild(bronze), ReportedOn, d) <==> s in OnDay(Rebuild(bronze'), ReportedOn, d) {
      if s in OnDay(Rebuild(bronze), ReportedOn, d) {
        var r :| r in bronze && Complete(r) && Report(r) == s;
        assert r in bronze';
      }
      if s in OnDay(Rebuild(bronze'), ReportedOn, d) {
        var r :| r in bronze' && Complete(r) && Report(r) == s;
        assert r in bronze;
      }
    }
  }

  lemma ExactStays(a: Store, b: Store, mark: Day)
    requires a.origin == b.origin && ExactThrough(a, mark)
    requires forall d | a.origin < d <= mark && Exact(a, d) :: Exact(b, d)
    ensures ExactThrough(b, mark)
  {
    forall d | b.origin < d <= mark ensures Exact(b, d) {
      assert Exact(a, d);
    }
  }

  /** Steps that touch neither Bronze nor Silver keep every day as exact as it was. */
  lemma SameTables(a: Store, b: Store, mark: Day)
    requires a.origin == b.origin && a.bronze == b.bronze && a.silver == b.silver && ExactThrough(a, mark)
    ensures ExactThrough(b, mark)
  {
    hide Rebuild;
    forall d | Exact(a, d) ensures Exact(b, d) {
    }
    ExactStays(a, b, mark);
  }

  lemma SilverWrite(st: Store, range: Range, clean: set<SilverRow>)
    requires Within(clean, ReportedOn, range.start, range.end)
    ensures forall d :: OnDay(ReplaceRange(st.silver, ReportedOn, clean, range.start, range.end), ReportedOn, d)
              == if range.start <= d <= range.end then OnDay(clean, ReportedOn, d) else OnDay(st.silver, ReportedOn, d)
  {
    forall d {
      ReplacedDay(st.silver, ReportedOn, clean, range.start, range.end, d);
    }
  }

  lemma BacklogStep(st: Store, job: Job, range: Range, cutoff: Day, phase: Phase)
    requires StoreInv(st) && job.step == Backlog(range, cutoff, phase) && BacklogInv(st, range, phase)
    requires range.end <= cutoff
    ensures var (st', phase') := StepPhase(st, job, range, cutoff, phase);
            && StoreInv(st') && st'.silverMark == st.silverMark && st'.frozen == st.frozen && st'.bronze == st.bronze
            && (phase'.Some? ==> BacklogInv(st', range, phase'.value))
  {
    match phase
    case Reading =>
      forall d | range.start <= d <= range.end
        ensures OnDay(CleanOf(st.bronze, range.start, range.end, cutoff), ReportedOn, d)
             == OnDay(Rebuild(st.bronze), ReportedOn, d)
      {
        RebuildOn(st.bronze, range.start, range.end, cutoff, d);
      }
    case Computed(out) =>
      SameTables(st, StepPhase(st, job, range, cutoff, phase).0, st.silverMark);
    case QuarantineWritten(out) =>
      hide Rebuild;
      SilverWrite(st, range, out.clean);
      var st' := StepPhase(st, job, range, cutoff, phase).0;
      forall d | st.origin < d <= st.silverMark ensures Exact(st', d) {
        assert Exact(st, d);
      }
    case BothWritten =>
  }

  lemma WindowStep(st: Store, job: Job, cutoff: Day, phase: Phase)
    requires StoreInv(st) && job.step == Window(cutoff, phase) && JobInv(st, job)
    ensures var (st', phase') := StepPhase(st, job, SlidingWindow(cutoff), cutoff, phase);
            && StoreInv(st') && (phase'.Some? ==> JobInv(st', job.(step := Window(cutoff, phase'.value))))
  {
    var range := SlidingWindow(cutoff);
    match phase
    case Reading =>
      forall d | range.start <= d <= range.end
        ensures OnDay(CleanOf(st.bronze, range.start, range.end, cutoff), ReportedOn, d)
             == OnDay(Rebuild(st.bronze), ReportedOn, d)
      {
        RebuildOn(st.bronze, range.start, range.end, cutoff, d);
      }
    case Computed(out) =>
      SameTables(st, StepPhase(st, job, range, cutoff, phase).0, st.silverMark);
    case QuarantineWritten(out) =>
      hide Rebuild;
      SilverWrite(st, range, out.clean);
      var st' := StepPhase(st, job, range, cutoff, phase).0;
      forall d | st.origin < d <= st.silverMark ensures Exact(st', d) {
        assert Exact(st, d);
      }
    case BothWritten =>
  }

  lemma TickKeepsInv(sys: System)
    requires Inv(sys) && sys.job.Some?
    ensures Inv(Next(sys, Tick))
  {
    hide Rebuild, Compute;
    var st, job := sys.store, sys.job.value;
    match job.step
    case ReadMarks =>
    case ReadCutoff(_, _) =>
    case Backlog(range, cutoff, phase) =>
      if !phase.BothWritten? {
        BacklogStep(st, job, range, cutoff, phase);
      }
    case MoveMark(range, _) => SameTables(st, Next(sys, Tick).store, range.end);
    case Window(cutoff, phase) =>
      if !phase.BothWritten? {
        WindowStep(st, job, cutoff, phase);
      }
  }

  /** Whatever happens to Bronze above the frozen days, exact days stay exact. */
  lemma BronzeCommitKeepsInv(sys: System, days: set<Day>, rows: set<BronzeRow>)
    requires Inv(sys) && Enabled(sys, CommitBronze(days, rows)) && Lookback(Next(sys, CommitBronze(days, rows)).store.bronze)
    ensures Inv(Next(sys, CommitBronze(days, rows)))
  {
    var st, st' := sys.store, Next(sys, CommitBronze(days, rows)).store;
    forall d | d <= st.frozen
      ensures OnDay(Rebuild(st.bronze), ReportedOn, d) == OnDay(Rebuild(st'.bronze), ReportedOn, d)
    {
      FrozenDaysKeepTheirReports(st.bronze, st'.bronze, st.frozen, d);
    }
    hide Rebuild;
    forall d | d <= st.frozen ensures Exact(st', d) <==> Exact(st, d) {
    }
  }

  lemma MarksKeepInv(sys: System, a: Action)
    requires Inv(sys) && Enabled(sys, a) && (a.Freeze? || a.MoveBronzeMark?)
    ensures Inv(Next(sys, a))
  {
    hide Rebuild;
    var st, st' := sys.store, Next(sys, a).store;
    SameTables(st, st', st.silverMark);
    if sys.job.Some? {
      match sys.job.value.step
      case Backlog(range, _, BothWritten) => SameTables(st, st', range.end);
      case MoveMark(range, _) => SameTables(st, st', range.end);
      case _ =>
    }
  }

  lemma NextKeepsInv(sys: System, a: Action)
    requires Inv(sys) && Lookback(Next(sys, a).store.bronze)
    ensures Inv(Next(sys, a))
  {
    if Enabled(sys, a) {
      match a
      case Tick => TickKeepsInv(sys);
      case CommitBronze(days, rows) => BronzeCommitKeepsInv(sys, days, rows);
      case Freeze(_) => MarksKeepInv(sys, a);
      case MoveBronzeMark(_) => MarksKeepInv(sys, a);
      case _ =>
    }
  }

  /** Main result: over all runs, with crashes anywhere and Bronze changing under a running job, every
      day from the start through the watermark always equals the full rebuild. */
  lemma {:induction false} WatermarkMeansRebuild(sys: System, actions: seq<Action>)
    requires Inv(sys) && Honest(sys, actions)
    ensures Inv(Run(sys, actions)) && Safe(Run(sys, actions).store)
    decreases |actions|
  {
    if actions != [] {
      NextKeepsInv(sys, actions[0]);
      WatermarkMeansRebuild(Next(sys, actions[0]), actions[1..]);
    }
  }

  /** A first deployment: both watermarks at the day before the first one, no table filled, no run. */
  ghost predicate Fresh(sys: System) {
    && sys.job.None? && sys.store.silver == {} && sys.store.quarantine == {}
    && sys.store.silverMark == sys.store.bronzeMark == sys.store.origin <= sys.store.frozen
    && Lookback(sys.store.bronze)
  }

  lemma FreshRunsMeanRebuild(sys: System, actions: seq<Action>)
    requires Fresh(sys) && Honest(sys, actions)
    ensures Safe(Run(sys, actions).store)
  {
    WatermarkMeansRebuild(sys, actions);
  }

  // ---------------------------------------------------------------- one uninterrupted run

  /** _process_range from start to end. A reversed range fails at the second write. */
  function Process(st: Store, range: Range, cutoff: Day, maxRatio: real): (Store, Option<Error>) {
    var result := Compute(st.bronze, range.start, range.end, cutoff, maxRatio);
    if result.Err? then (st, Some(result.error))
    else
      var st' := WriteQuarantine(st, range, result.value);
      if range.start > range.end then (st', Some(ReversedRange))
      else (st'.(silver := ReplaceRange(st.silver, ReportedOn, result.value.clean, range.start, range.end)), None)
  }

  function RunWith(st: Store, backlog: Option<Range>, cutoff: Day, maxRatio: real): (Store, Option<Error>) {
    if backlog.None? then Process(st, SlidingWindow(cutoff), cutoff, maxRatio)
    else
      var (st', error) := Process(st, backlog.value, cutoff, maxRatio);
      if error.Some? then (st', error)
      else Process(st'.(silverMark := backlog.value.end), SlidingWindow(cutoff), cutoff, maxRatio)
  }

  ghost function CutoffOf(st: Store, pinned: Option<Day>): Day {
    ResolveCutoff(MaxDeclared(st.bronze), st.bronzeMark, pinned)
  }

  function BacklogOf(st: Store, cutoff: Day, maxDays: Option<int>): Option<Range> {
    BacklogRange(st.silverMark, st.bronzeMark, SlidingWindow(cutoff).start, maxDays)
  }

  lemma ProcessMakesExact(st: Store, range: Range, cutoff: Day, maxRatio: real, d: Day)
    requires Lookback(st.bronze) && range.end <= cutoff && Process(st, range, cutoff, maxRatio).1.None?
    ensures range.start <= d <= range.end ==> Exact(Process(st, range, cutoff, maxRatio).0, d)
    ensures !(range.start <= d <= range.end) ==> (Exact(Process(st, range, cutoff, maxRatio).0, d) <==> Exact(st, d))
  {
    var clean := CleanOf(st.bronze, range.start, range.end, cutoff);
    SilverWrite(st, range, clean);
    if range.start <= d <= range.end {
      RebuildOn(st.bronze, range.start, range.end, cutoff, d);
    }
    hide Rebuild, CleanRange;
    var st' := Process(st, range, cutoff, maxRatio).0;
    assert OnDay(st'.silver, ReportedOn, d)
        == if range.start <= d <= range.end then OnDay(clean, ReportedOn, d) else OnDay(st.silver, ReportedOn, d);
  }

  /** Bronze has settled up to the window, and the cap does not cut the backlog. */
  predicate SettledToWindow(st: Store, cutoff: Day, maxDays: Option<int>) {
    && st.bronzeMark >= SlidingWindow(cutoff).start - 1
    && st.silverMark + maxDays.GetOr(DEFAULT_MAX_DAYS_PER_RUN) >= SlidingWindow(cutoff).start - 1
  }

  /** After a successful run the whole 31-day window equals the full rebuild, and when the cap did not
      bite and Bronze had settled up to the window, so does every day from the start on: no day is
      skipped between the watermark and the window. */
  lemma RunLeavesNoGap(st: Store, pinned: Option<Day>, maxDays: Option<int>, maxRatio: real, d: Day)
    requires StoreInv(st)
    requires RunWith(st, BacklogOf(st, CutoffOf(st, pinned), maxDays), CutoffOf(st, pinned), maxRatio).1.None?
    ensures CutoffOf(st, pinned) - 30 <= d <= CutoffOf(st, pinned) ==>
      Exact(RunWith(st, BacklogOf(st, CutoffOf(st, pinned), maxDays), CutoffOf(st, pinned), maxRatio).0, d)
    ensures SettledToWindow(st, CutoffOf(st, pinned), maxDays) && st.origin < d <= CutoffOf(st, pinned) ==>
      Exact(RunWith(st, BacklogOf(st, CutoffOf(st, pinned), maxDays), CutoffOf(st, pinned), maxRatio).0, d)
  {
    var cutoff := CutoffOf(st, pinned);
    var backlog := BacklogOf(st, cutoff, maxDays);
    assert st.origin < d <= st.silverMark ==> Exact(st, d);
    hide Rebuild, Compute, ReplaceRange, MaxDeclared, CutoffOf;
    if backlog.Some? {
      var st1 := Process(st, backlog.value, cutoff, maxRatio).0;
      ProcessMakesExact(st, backlog.value, cutoff, maxRatio, d);
      var st2 := st1.(silverMark := backlog.value.end);
      assert Exact(st2, d) <==> Exact(st1, d);
      ProcessMakesExact(st2, SlidingWindow(cutoff), cutoff, maxRatio, d);
    } else {
      ProcessMakesExact(st, SlidingWindow(cutoff), cutoff, maxRatio, d);
    }
  }

  // ---------------------------------------------------------------- what a run means for the rows

  /** A pin wins; otherwise the cutoff is the newest of the request partitions and the Bronze watermark. */
  lemma CutoffIsNewest(st: Store, pinned: Option<Day>)
    ensures pinned.Some? ==> CutoffOf(st, pinned) == pinned.value
    ensures pinned.None? ==>
      && st.bronzeMark <= CutoffOf(st, pinned) && (forall r | r in st.bronze :: r.declared <= CutoffOf(st, pinned))
      && (CutoffOf(st, pinned) == st.bronzeMark || exists r | r in st.bronze :: r.declared == CutoffOf(st, pinned))
  {
  }

  /** After a successful unpinned run, Silver holds of the 31 days ending at the newest request partition
      or watermark exactly the complete reports that Bronze holds of them. */
  lemma WindowHoldsEveryReport(st: Store, maxDays: Option<int>, maxRatio: real, newest: Day, s: SilverRow)
    requires StoreInv(st)
    requires RunWith(st, BacklogOf(st, CutoffOf(st, None), maxDays), CutoffOf(st, None), maxRatio).1.None?
    requires st.bronzeMark <= newest && forall r | r in st.bronze :: r.declared <= newest
    requires newest == st.bronzeMark || exists r | r in st.bronze :: r.declared == newest
    requires newest - 31 < s.reported <= newest
    ensures s in RunWith(st, BacklogOf(st, CutoffOf(st, None), maxDays), CutoffOf(st, None), maxRatio).0.silver
       <==> exists r | r in st.bronze :: r.bike == Some(s.bike) && r.reported == Some(s.reported) && r.kind == Some(s.kind)
  {
    CutoffIsNewest(st, None);
    var st' := RunWith(st, BacklogOf(st, CutoffOf(st, None), maxDays), CutoffOf(st, None), maxRatio).0;
    RunLeavesNoGap(st, None, maxDays, maxRatio, s.reported);
    RunKeepsBronze(st, BacklogOf(st, CutoffOf(st, None), maxDays), CutoffOf(st, None), maxRatio);
    hide RunWith, BacklogOf, CutoffOf, StoreInv;
    assert s in st'.silver <==> s in OnDay(st'.silver, ReportedOn, s.reported);
    assert s in Rebuild(st.bronze) <==> s in OnDay(Rebuild(st.bronze), ReportedOn, s.reported);
    if r :| r in st.bronze && r.bike == Some(s.bike) && r.reported == Some(s.reported) && r.kind == Some(s.kind) {
      assert Complete(r) && Report(r) == s;
    }
  }

  /** What a range writes, on the columns: the distinct complete reports dated in the range and not beyond
      the cutoff, of the request days from 30 days earlier through its end; and of those request days the
      rows dated beyond the cutoff. */
  lemma ComputedMeans(bronze: set<BronzeRow>, from: Day, last: Day, cutoff: Day, maxRatio: real)
    requires Compute(bronze, from, last, cutoff, maxRatio).Ok?
    ensures var out := Compute(bronze, from, last, cutoff, maxRatio).value;
            && (forall s :: s in out.clean <==>
                  from <= s.reported <= last && s.reported <= cutoff
                  && exists r | r in bronze && from - 30 <= r.declared <= last ::
                       r.bike == Some(s.bike) && r.reported == Some(s.reported) && r.kind == Some(s.kind))
            && (forall r :: r in out.quarantine <==> r in bronze && from - 30 <= r.declared <= last && FromTheFuture(r, cutoff))
  {
    var out := Compute(bronze, from, last, cutoff, maxRatio).value;
    forall s: SilverRow | from <= s.reported <= last && s.reported <= cutoff
      ensures s in out.clean <==>
        exists r | r in bronze && from - 30 <= r.declared <= last ::
          r.bike == Some(s.bike) && r.reported == Some(s.reported) && r.kind == Some(s.kind)
    {
      if r :| r in bronze && from - 30 <= r.declared <= last
              && r.bike == Some(s.bike) && r.reported == Some(s.reported) && r.kind == Some(s.kind) {
        assert Complete(r) && Report(r) == s;
      }
    }
  }

  /** The backlog in dates: from the day after the watermark to the earliest of the Bronze watermark, the
      day below the window and the cap (70 days by default); none when that lies behind the watermark. */
  lemma BacklogInDates(st: Store, cutoff: Day, maxDays: Option<int>)
    ensures var limit := if st.bronzeMark <= cutoff - 31 then st.bronzeMark else cutoff - 31;
            var cap := if maxDays.Some? then maxDays.value else 70;
            && (limit <= st.silverMark ==> BacklogOf(st, cutoff, maxDays) == None)
            && (st.silverMark < limit ==>
                  BacklogOf(st, cutoff, maxDays)
                  == Some(Range(st.silverMark + 1, if limit <= st.silverMark + cap then limit else st.silverMark + cap)))
  {
  }

  /** Where a successful run leaves the watermark: below the window, not beyond the Bronze watermark, and at
      most the cap (70 days by default) further on. */
  lemma RunMovesMark(st: Store, pinned: Option<Day>, maxDays: Option<int>, maxRatio: real)
    requires RunWith(st, BacklogOf(st, CutoffOf(st, pinned), maxDays), CutoffOf(st, pinned), maxRatio).1.None?
    ensures var limit := Min(st.bronzeMark, CutoffOf(st, pinned) - 31);
            var cap := if maxDays.Some? then maxDays.value else 70;
            RunWith(st, BacklogOf(st, CutoffOf(st, pinned), maxDays), CutoffOf(st, pinned), maxRatio).0.silverMark
            == if limit <= st.silverMark then st.silverMark
               else if limit <= st.silverMark + cap then limit else st.silverMark + cap
  {
    hide Compute, ReplaceRange, CutoffOf;
  }

  lemma RunKeepsBronze(st: Store, backlog: Option<Range>, cutoff: Day, maxRatio: real)
    ensures RunWith(st, backlog, cutoff, maxRatio).0.bronze == st.bronze
  {
    hide Compute, ReplaceRange;
  }

  /** A complete row whose report is dated beyond the cutoff. */
  predicate FromTheFuture(r: BronzeRow, cutoff: Day) {
    r.bike.Some? && r.kind.Some? && r.reported.Some? && cutoff < r.reported.value
  }

  /** One range: quarantine holds, of the request days read, exactly the rows from the future. */
  lemma ProcessQuarantines(st: Store, range: Range, cutoff: Day, maxRatio: real, r: BronzeRow)
    requires Compute(st.bronze, range.start, range.end, cutoff, maxRatio).Ok?
    ensures range.start - 30 <= r.declared <= range.end ==>
      (r in Process(st, range, cutoff, maxRatio).0.quarantine <==> r in st.bronze && FromTheFuture(r, cutoff))
    ensures !(range.start - 30 <= r.declared <= range.end) ==>
      (r in Process(st, range, cutoff, maxRatio).0.quarantine <==> r in st.quarantine)
  {
  }

  /** After a successful run quarantine holds, of the 61 request days the window read and of those the
      backlog read, exactly the rows dated beyond the cutoff; other request days keep their rows. */
  lemma RunQuarantines(st: Store, backlog: Option<Range>, cutoff: Day, maxRatio: real, r: BronzeRow)
    requires RunWith(st, backlog, cutoff, maxRatio).1.None?
    ensures var read := || cutoff - 60 <= r.declared <= cutoff
                        || (backlog.Some? && backlog.value.start - 30 <= r.declared <= backlog.value.end);
            r in RunWith(st, backlog, cutoff, maxRatio).0.quarantine
            <==> if read then r in st.bronze && FromTheFuture(r, cutoff) else r in st.quarantine
  {
    hide Compute, ReplaceRange;
    if backlog.Some? {
      ProcessQuarantines(st, backlog.value, cutoff, maxRatio, r);
      var st1 := Process(st, backlog.value, cutoff, maxRatio).0.(silverMark := backlog.value.end);
      ProcessQuarantines(st1, SlidingWindow(cutoff), cutoff, maxRatio, r);
    } else {
      ProcessQuarantines(st, SlidingWindow(cutoff), cutoff, maxRatio, r);
    }
  }

  /** A range is stopped for a row without a bike, a readable date or a kind among the request days read,
      or else because more than the given share of them is from the future, and for nothing else. */
  lemma StoppedIff(bronze: set<BronzeRow>, from: Day, last: Day, cutoff: Day, maxRatio: real)
    ensures var read := set r | r in bronze && from - 30 <= r.declared <= last;
            var future := set r | r in read && FromTheFuture(r, cutoff);
            var incomplete := exists r | r in read :: r.bike.None? || r.reported.None? || r.kind.None?;
            && (Compute(bronze, from, last, cutoff, maxRatio) == Err(RequiredColumnNull) <==> incomplete)
            && (Compute(bronze, from, last, cutoff, maxRatio) == Err(TooManyFuture) <==>
                  !incomplete && future != {} && |future| as real / |read| as real > maxRatio)
            && (Compute(bronze, from, last, cutoff, maxRatio).Err? ==>
                  Compute(bronze, from, last, cutoff, maxRatio).error in {RequiredColumnNull, TooManyFuture})
  {
    var read := set r | r in bronze && from - 30 <= r.declared <= last;
    assert Requested(bronze, from - BRONZE_LOOKBACK_DAYS, last) == read;
    assert Future(read, cutoff) == set r | r in read && FromTheFuture(r, cutoff);
    hide CleanOf;
  }

  lemma ComputedStaysInside(bronze: set<BronzeRow>, from: Day, last: Day, cutoff: Day, maxRatio: real)
    requires Compute(bronze, from, last, cutoff, maxRatio).Ok?
    ensures var out := Compute(bronze, from, last, cutoff, maxRatio).value;
            && Within(out.quarantine, DeclaredOn, from - BRONZE_LOOKBACK_DAYS, last) && Within(out.clean, ReportedOn, from, last)
            && (from - BRONZE_LOOKBACK_DAYS > last ==> out.quarantine == {})
  {
  }

  lemma ReversedReplaceIsNothing<R>(rows: set<R>, part: R -> Day, from: Day, last: Day)
    requires from > last
    ensures ReplaceRange(rows, part, {}, from, last) == rows
  {
  }

  // ---------------------------------------------------------------- a run is a sequence of ticks

  ghost function Ticks(sys: System, n: nat): System
    decreases n
  {
    if n == 0 then sys else Ticks(Next(sys, Tick), n - 1)
  }

  lemma {:induction false} TicksAdd(sys: System, m: nat, n: nat)
    ensures Ticks(sys, m + n) == Ticks(Ticks(sys, m), n)
    decreases m
  {
    hide Next;
    if m > 0 {
      TicksAdd(Next(sys, Tick), m - 1, n);
    }
  }

  lemma ThreeTicks(sys: System, a: System, b: System, c: System)
    requires Next(sys, Tick) == a && Next(a, Tick) == b && Next(b, Tick) == c
    ensures Ticks(sys, 3) == c
  {
    hide Next;
    assert Ticks(sys, 3) == Ticks(a, 2) == Ticks(b, 1) == Ticks(c, 0);
  }

  lemma WindowTicks(st: Store, job: Job, cutoff: Day)
    requires job.step == Window(cutoff, Reading) && Process(st, SlidingWindow(cutoff), cutoff, job.maxRatio).1.None?
    ensures Ticks(System(st, Some(job)), 4) == System(Process(st, SlidingWindow(cutoff), cutoff, job.maxRatio).0, None)
  {
    hide Compute, ReplaceRange;
    var range := SlidingWindow(cutoff);
    var out := Compute(st.bronze, range.start, range.end, cutoff, job.maxRatio).value;
    var s1 := System(st, Some(job.(step := Window(cutoff, Computed(out)))));
    var st2 := WriteQuarantine(st, range, out);
    var s2 := System(st2, Some(job.(step := Window(cutoff, QuarantineWritten(out)))));
    var s3 := System(Process(st, range, cutoff, job.maxRatio).0, Some(job.(step := Window(cutoff, BothWritten))));
    ThreeTicks(System(st, Some(job)), s1, s2, s3);
    TicksAdd(System(st, Some(job)), 3, 1);
    assert Ticks(s3, 1) == Next(s3, Tick);
  }

  lemma BacklogTicks(st: Store, job: Job, range: Range, cutoff: Day)
    requires job.step == Backlog(range, cutoff, Reading) && Process(st, range, cutoff, job.maxRatio).1.None?
    ensures Ticks(System(st, Some(job)), 5)
         == System(Process(st, range, cutoff, job.maxRatio).0.(silverMark := range.end), Some(job.(step := Window(cutoff, Reading))))
  {
    hide Compute, ReplaceRange;
    var out := Compute(st.bronze, range.start, range.end, cutoff, job.maxRatio).value;
    var s1 := System(st, Some(job.(step := Backlog(range, cutoff, Computed(out)))));
    var st2 := WriteQuarantine(st, range, out);
    var s2 := System(st2, Some(job.(step := Backlog(range, cutoff, QuarantineWritten(out)))));
    var s3 := System(Process(st, range, cutoff, job.maxRatio).0, Some(job.(step := Backlog(range, cutoff, BothWritten))));
    ThreeTicks(System(st, Some(job)), s1, s2, s3);
    TicksAdd(System(st, Some(job)), 3, 2);
    var s4 := System(s3.store, Some(job.(step := MoveMark(range, cutoff))));
    assert Next(s3, Tick) == s4;
    assert Ticks(s3, 2) == Ticks(s4, 1) == Next(s4, Tick);
  }

  lemma RunIsTicks(st: Store, pinned: Option<Day>, maxDays: Option<int>, maxRatio: real) returns (n: nat)
    requires RunWith(st, BacklogOf(st, CutoffOf(st, pinned), maxDays), CutoffOf(st, pinned), maxRatio).1.None?
    ensures Ticks(System(st, Some(Job(pinned, maxDays, maxRatio, ReadMarks))), n)
         == System(RunWith(st, BacklogOf(st, CutoffOf(st, pinned), maxDays), CutoffOf(st, pinned), maxRatio).0, None)
  {
    hide Process, MaxDeclared;
    var job := Job(pinned, maxDays, maxRatio, ReadMarks);
    var cutoff := CutoffOf(st, pinned);
    var backlog := BacklogOf(st, cutoff, maxDays);
    var s0, s1 := System(st, Some(job)), System(st, Some(job.(step := ReadCutoff(st.bronzeMark, st.silverMark))));
    assert Next(s0, Tick) == s1;
    var next := if backlog.Some? then Backlog(backlog.value, cutoff, Reading) else Window(cutoff, Reading);
    var s2 := System(st, Some(job.(step := next)));
    assert Next(s1, Tick) == s2;
    hide Next;
    assert Ticks(s0, 2) == Ticks(s1, 1) == Ticks(s2, 0);
    if backlog.Some? {
      BacklogTicks(st, job.(step := next), backlog.value, cutoff);
      var st' := Process(st, backlog.value, cutoff, maxRatio).0.(silverMark := backlog.value.end);
      WindowTicks(st', job.(step := Window(cutoff, Reading)), cutoff);
      TicksAdd(s0, 2, 5);
      TicksAdd(s0, 7, 4);
      n := 11;
    } else {
      WindowTicks(st, job.(step := next), cutoff);
      TicksAdd(s0, 2, 4);
      n := 6;
    }
  }

  function TickTimes(n: nat): seq<Action> {
    if n == 0 then [] else [Tick] + TickTimes(n - 1)
  }

  lemma {:induction false} TicksAreARun(sys: System, n: nat)
    requires sys.job.Some?
    ensures Run(sys, TickTimes(n)) == Ticks(sys, n)
    decreases n
  {
    hide StepJob;
    if n > 0 {
      assert TickTimes(n)[1..] == TickTimes(n - 1);
      if Next(sys, Tick).job.Some? {
        TicksAreARun(Next(sys, Tick), n - 1);
      } else {
        IdleTicks(Next(sys, Tick), n - 1);
      }
    }
  }

  lemma {:induction false} IdleTicks(sys: System, n: nat)
    requires sys.job.None?
    ensures Run(sys, TickTimes(n)) == sys == Ticks(sys, n)
    decreases n
  {
    if n > 0 {
      assert TickTimes(n)[1..] == TickTimes(n - 1);
      IdleTicks(sys, n - 1);
    }
  }

  /** The uninterrupted run is a run of the state machine: a start, and then only its own turns. */
  lemma RunIsARun(st: Store, pinned: Option<Day>, maxDays: Option<int>, maxRatio: real) returns (actions: seq<Action>)
    requires RunWith(st, BacklogOf(st, CutoffOf(st, pinned), maxDays), CutoffOf(st, pinned), maxRatio).1.None?
    ensures Run(System(st, None), actions)
         == System(RunWith(st, BacklogOf(st, CutoffOf(st, pinned), maxDays), CutoffOf(st, pinned), maxRatio).0, None)
  {
    hide RunWith, CutoffOf, BacklogOf, StepJob;
    var n := RunIsTicks(st, pinned, maxDays, maxRatio);
    actions := [Start(pinned, maxDays, maxRatio)] + TickTimes(n);
    var started := System(st, Some(Job(pinned, maxDays, maxRatio, ReadMarks)));
    assert Next(System(st, None), actions[0]) == started && actions[1..] == TickTimes(n);
    TicksAreARun(started, n);
  }

  /** What may happen around a run at any time: it may die, days may freeze, days that are not frozen may
      be committed, and the Bronze watermark may follow the frozen days. */
  lemma AnythingMayHappen(sys: System, days: set<Day>, rows: set<BronzeRow>, to: Day)
    ensures Next(sys, Crash) == sys.(job := None)
    ensures to >= sys.store.frozen ==> Next(sys, Freeze(to)).store.frozen == to
    ensures sys.store.origin <= to <= sys.store.frozen ==> Next(sys, MoveBronzeMark(to)).store.bronzeMark == to
    ensures (forall d | d in days :: sys.store.frozen < d) && (forall r | r in rows :: r.declared in days) ==>
      forall r :: r in Next(sys, CommitBronze(days, rows)).store.bronze
                  <==> if r.declared in days then r in rows else r in sys.store.bronze
  {
  }

  class FailureReportJobs {
    const silver: Table<SilverRow>
    const quarantine: Table<BronzeRow>
    const bronzeMark: Watermark.Cell
    const silverMark: Watermark.Cell
    var bronze: set<BronzeRow>
    ghost var origin: Day
    ghost var frozen: Day

    ghost predicate Valid() {
      silver.part == ReportedOn && quarantine.part == DeclaredOn && bronzeMark != silverMark
    }

    ghost function View(): Store
      reads this, silver, quarantine, bronzeMark, silverMark
    {
      Store(origin, bronze, frozen, silver.rows, quarantine.rows, bronzeMark.Value(), silverMark.Value())
    }

    constructor (bronzeMark: Watermark.Cell, silverMark: Watermark.Cell, bronze: set<BronzeRow>, start: Day)
      requires bronzeMark != silverMark
      ensures Valid() && this.bronzeMark == bronzeMark && this.silverMark == silverMark
      ensures View() == Store(start, bronze, start, {}, {}, bronzeMark.Value(), silverMark.Value())
    {
      silver := new Table(ReportedOn);
      quarantine := new Table(DeclaredOn);
      this.bronzeMark, this.silverMark, this.bronze, origin, frozen := bronzeMark, silverMark, bronze, start, start;
    }

    /** Computes and checks first; then replaces the request days read in quarantine, and the report
        days in Silver, also when there is nothing to write. */
    method ProcessRange(range: Range, cutoff: Day, maxRatio: real) returns (error: Option<Error>)
      requires Valid()
      modifies silver, quarantine
      ensures (View(), error) == Process(old(View()), range, cutoff, maxRatio)
    {
      hide Compute, ReplaceRange;
      var result := Compute(bronze, range.start, range.end, cutoff, maxRatio);
      if result.Err? {
        return Some(result.error);
      }
      var out := result.value;
      ComputedStaysInside(bronze, range.start, range.end, cutoff, maxRatio);
      var reversed := quarantine.Replace(out.quarantine, range.start - BRONZE_LOOKBACK_DAYS, range.end);
      if reversed.Some? {
        ReversedReplaceIsNothing(quarantine.rows, DeclaredOn, range.start - BRONZE_LOOKBACK_DAYS, range.end);
        return Some(ReversedRange);
      }
      var failed := silver.Replace(out.clean, range.start, range.end);
      if failed.Some? {
        return Some(ReversedRange);
      }
      return None;
    }

    method BronzeMaxPartition() returns (newest: Option<Day>)
      ensures newest == MaxDeclared(bronze)
    {
      var rest := bronze;
      newest := None;
      while rest != {}
        invariant rest <= bronze
        invariant newest.None? ==> rest == bronze
        invariant newest.Some? ==> exists r | r in bronze :: r.declared == newest.value
        invariant newest.Some? ==> forall r | r in bronze && r !in rest :: r.declared <= newest.value
        decreases |rest|
      {
        var r :| r in rest;
        rest := rest - {r};
        if newest.None? || newest.value < r.declared {
          newest := Some(r.declared);
        }
      }
    }

    /** The whole run: backlog, watermark, window. */
    method Run(pinned: Option<Day>, maxDays: Option<int>, maxRatio: real) returns (error: Option<Error>)
      requires Valid()
      modifies silver, quarantine, silverMark
      ensures var cutoff := CutoffOf(old(View()), pinned);
              (View(), error) == RunWith(old(View()), BacklogOf(old(View()), cutoff, maxDays), cutoff, maxRatio)
    {
      hide Process, MaxDeclared;
      var bronzeSeen := bronzeMark.Read();
      var silverSeen := silverMark.Read();
      var newest := BronzeMaxPartition();
      var cutoff := ResolveCutoff(newest, bronzeSeen, pinned);
      var window := SlidingWindow(cutoff);
      var backlog := BacklogRange(silverSeen, bronzeSeen, window.start, maxDays);
      if backlog.Some? {
        error := ProcessRange(backlog.value, cutoff, maxRatio);
        if error.Some? {
          return;
        }
        silverMark.Write(backlog.value.end);
      }
      error := ProcessRange(window, cutoff, maxRatio);
    }
  }
}
