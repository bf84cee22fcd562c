/** Switching the Bikeman Silver table to identity partitions by building a second table and renaming,
    with recovery from a crash between any two catalog operations, and the daily run around it
    (staging/jobs/silver_bikeman_action.py). */
module IdentityRebuild {
  import opened Basics

  /** What processing one Bronze day gives: its valid rows, and whether they pass the quality check. */
  datatype DayResult = DayResult(rows: set<int>, passes: bool)

  type Source = Day -> DayResult

  datatype Tab = Tab(identity: bool, days: map<Day, set<int>>)

  const EMPTY := Tab(true, map[])
  const LOOKBACK_DAYS := 3

  /** The three names in the catalog, and the Silver watermark. `first` is the first service day. */
  datatype Catalog = Catalog(silver: Option<Tab>, backup: Option<Tab>, rebuild: Option<Tab>, mark: Day, first: Day)

  datatype Failure = BackupLeftOver | QualityFailed | RenameFailed

  /** Where a run stands; each step performs at most one catalog or watermark operation. */
  datatype Step =
    | Ensure
    | Drop
    | Create
    | Fill(next: Day)
    | RenameAway
    | RenameIn
    | PutBack
    | Resume
    | Restore
    | CreateNew
    | Days(next: Day)
    | Mark(day: Day)
    | Done
    | Failed(failure: Failure)

  datatype Job = Job(endDate: Day, markRead: Day, step: Step)

  /** At most one run is active (airflow/dags/silver_bikeman_action_dag.py). */
  datatype System = System(catalog: Catalog, src: Source, job: Option<Job>)

  /** `raises` makes a rename fail with an exception instead of taking effect; Arrive is what Bronze
      holds after more events came in. */
  datatype Action = Start(endDate: Day) | Tick(raises: bool) | Crash | Arrive(src: Source)

  // ---------------------------------------------------------------- steps

  /** _process_one_day: an empty result leaves the partition alone. */
  function ProcessDay(t: Tab, src: Source, d: Day): Tab {
    if src(d).rows == {} then t else t.(days := t.days[d := src(d).rows])
  }

  predicate Passes(src: Source, d: Day) {
    src(d).rows == {} || src(d).passes
  }

  /** _processing_window and the job's first day. */
  function DaysFrom(job: Job, first: Day): Step {
    if job.markRead > job.endDate then Done else Days(Max(job.markRead + 1 - LOOKBACK_DAYS, first))
  }

  function RebuildEnd(job: Job, first: Day): Day {
    Max(job.markRead, first - 1)
  }

  function StepJob(src: Source, c: Catalog, job: Job, raises: bool): (Catalog, Job) {
    match job.step
    case Ensure =>
      (c, job.(step :=
        if c.silver.Some? then
          if c.silver.value.identity then DaysFrom(job, c.first)
          else if c.backup.Some? then Failed(BackupLeftOver)
          else if c.rebuild.Some? then Drop else Create
        else if c.backup.Some? then if c.rebuild.Some? then Resume else Restore
        else CreateNew))
    case Drop => (c.(rebuild := None), job.(step := Create))
    case Create => (c.(rebuild := Some(EMPTY)), job.(step := Fill(c.first)))
    case Fill(d) =>
      if d > RebuildEnd(job, c.first) || c.rebuild.None? then (c, job.(step := RenameAway))
      else if !Passes(src, d) then (c, job.(step := Failed(QualityFailed)))
      else (c.(rebuild := Some(ProcessDay(c.rebuild.value, src, d))), job.(step := Fill(d + 1)))
    case RenameAway =>
      if raises then (c, job.(step := Failed(RenameFailed)))
      else (c.(backup := c.silver, silver := None), job.(step := RenameIn))
    case RenameIn =>
      if raises then (c, job.(step := PutBack))
      else (c.(silver := c.rebuild, rebuild := None), job.(step := DaysFrom(job, c.first)))
    case PutBack =>
      (if raises then c else c.(silver := c.backup, backup := None), job.(step := Failed(RenameFailed)))
    case Resume =>
      if raises then (c, job.(step := Failed(RenameFailed)))
      else (c.(silver := c.rebuild, rebuild := None), job.(step := DaysFrom(job, c.first)))
    case Restore =>
      if raises then (c, job.(step := Failed(RenameFailed)))
      else (c.(silver := c.backup, backup := None), job.(step := Ensure))
    case CreateNew => (c.(silver := Some(EMPTY)), job.(step := DaysFrom(job, c.first)))
    case Days(d) =>
      if d > job.endDate || c.silver.None? then (c, job.(step := Done))
      else if !Passes(src, d) then (c, job.(step := Failed(QualityFailed)))
      else (c.(silver := Some(ProcessDay(c.silver.value, src, d))),
            job.(step := if d >= job.markRead + 1 then Mark(d) else Days(d + 1)))
    case Mark(d) => (c.(mark := d), job.(step := Days(d + 1)))
    case Done => (c, job)
    case Failed(_) => (c, job)
  }

  /** Events only arrive: no day loses one. Whether a day passes its check may change. */
  ghost predicate Extends(before: Source, after: Source) {
    forall d :: before(d).rows <= after(d).rows
  }

  ghost function Next(sys: System, a: Action): System {
    match a
    case Start(endDate) =>
      if sys.job.Some? && !sys.job.value.step.Done? && !sys.job.value.step.Failed? then sys
      else sys.(job := Some(Job(endDate, sys.catalog.mark, Ensure)))
    case Tick(raises) =>
      if sys.job.None? then sys
      else
        var (c, job) := StepJob(sys.src, sys.catalog, sys.job.value, raises);
        sys.(catalog := c, job := Some(job))
    case Crash => sys.(job := None)
    case Arrive(src) => if Extends(sys.src, src) then sys.(src := src) else sys
  }

  ghost function Run(sys: System, actions: seq<Action>): System
    decreases |actions|
  {
    if actions == [] then sys else Run(Next(sys, actions[0]), actions[1..])
  }

  // ---------------------------------------------------------------- what is promised

  /** On every service day through `last` that has events in `base`, the table holds them all, and
      nothing that Bronze does not hold by now. */
  predicate CompleteThrough(t: Tab, base: Source, src: Source, first: Day, last: Day) {
    forall d | first <= d <= last && base(d).rows != {} :: d in t.days && base(d).rows <= t.days[d] <= src(d).rows
  }

  predicate Holds(t: Option<Tab>, base: Source, src: Source, c: Catalog) {
    t.Some? && CompleteThrough(t.value, base, src, c.first, c.mark)
  }

  /** No data is lost: a complete table exists under one of the two lasting names (or there is nothing
      to hold yet). */
  predicate Survives(base: Source, src: Source, c: Catalog) {
    || Holds(c.silver, base, src, c)
    || (c.silver.None? && Holds(c.backup, base, src, c))
    || (c.silver.None? && c.backup.None? && CompleteThrough(EMPTY, base, src, c.first, c.mark))
  }

  ghost predicate CatalogInv(base: Source, src: Source, c: Catalog) {
    && Extends(base, src)
    && Survives(base, src, c)
    && (c.silver.Some? && !c.silver.value.identity ==> c.backup.None?)
    && (c.silver.None? && c.backup.Some? && c.rebuild.Some? ==> c.rebuild.value.identity && Holds(c.rebuild, base, src, c))
  }

  /** Before the swap: SILVER is still the old table and there is no backup. */
  predicate OldInPlace(c: Catalog, job: Job) {
    job.markRead == c.mark && c.silver.Some? && !c.silver.value.identity && c.backup.None?
  }

  /** Between the two renames. */
  predicate MidSwap(c: Catalog, job: Job) {
    job.markRead == c.mark && c.silver.None? && c.backup.Some? && c.rebuild.Some?
  }

  predicate InDays(c: Catalog, job: Job, d: Day) {
    && c.silver.Some? && c.silver.value.identity && c.first <= d
    && job.markRead <= c.mark <= Max(job.markRead, d - 1)
    && d <= Max(c.mark, c.first - 1) + 1
  }

  ghost predicate JobInv(base: Source, src: Source, c: Catalog, job: Job) {
    match job.step
    case Ensure => job.markRead == c.mark
    case Drop => OldInPlace(c, job)
    case Create => OldInPlace(c, job)
    case Fill(d) =>
      && OldInPlace(c, job) && c.rebuild.Some? && c.rebuild.value.identity && c.first <= d
      && CompleteThrough(c.rebuild.value, base, src, c.first, d - 1)
    case RenameAway => OldInPlace(c, job) && c.rebuild.Some? && c.rebuild.value.identity && Holds(c.rebuild, base, src, c)
    case RenameIn => MidSwap(c, job)
    case PutBack => MidSwap(c, job)
    case Resume => MidSwap(c, job)
    case Restore => job.markRead == c.mark && c.silver.None? && c.backup.Some? && c.rebuild.None?
    case CreateNew => job.markRead == c.mark && c.silver.None? && c.backup.None?
    case Days(d) => InDays(c, job, d)
    case Mark(d) => InDays(c, job, d) && job.markRead < d && CompleteThrough(c.silver.value, base, src, c.first, d)
    case Done => true
    case Failed(f) => f != BackupLeftOver
  }

  ghost predicate Inv(base: Source, sys: System) {
    CatalogInv(base, sys.src, sys.catalog) && (sys.job.Some? ==> JobInv(base, sys.src, sys.catalog, sys.job.value))
  }

  lemma ProcessDayKeeps(t: Tab, base: Source, src: Source, first: Day, last: Day, d: Day)
    requires Extends(base, src) && CompleteThrough(t, base, src, first, last)
    ensures CompleteThrough(ProcessDay(t, src, d), base, src, first, if d == last + 1 then d else last)
  {
    assert base(d).rows <= src(d).rows;
  }

  lemma FillStep(base: Source, src: Source, c: Catalog, job: Job, raises: bool)
    requires job.step.Fill? && CatalogInv(base, src, c) && JobInv(base, src, c, job)
    ensures var (c', job') := StepJob(src, c, job, raises); CatalogInv(base, src, c') && JobInv(base, src, c', job')
  {
    var d := job.step.next;
    if d <= RebuildEnd(job, c.first) && Passes(src, d) {
      ProcessDayKeeps(c.rebuild.value, base, src, c.first, d - 1, d);
    }
  }

  lemma DaysStep(base: Source, src: Source, c: Catalog, job: Job, raises: bool)
    requires (job.step.Days? || job.step.Mark?) && CatalogInv(base, src, c) && JobInv(base, src, c, job)
    ensures var (c', job') := StepJob(src, c, job, raises); CatalogInv(base, src, c') && JobInv(base, src, c', job')
  {
    if job.step.Days? {
      var d := job.step.next;
      if d <= job.endDate && Passes(src, d) {
        ProcessDayKeeps(c.silver.value, base, src, c.first, c.mark, d);
        ProcessDayKeeps(c.silver.value, base, src, c.first, Max(c.mark, c.first - 1), d);
      }
    }
  }

  lemma SwapStep(base: Source, src: Source, c: Catalog, job: Job, raises: bool)
    requires !job.step.Days? && !job.step.Mark? && !job.step.Fill? && CatalogInv(base, src, c) && JobInv(base, src, c, job)
    ensures var (c', job') := StepJob(src, c, job, raises); CatalogInv(base, src, c') && JobInv(base, src, c', job')
  {
  }

  lemma TickKeepsInv(base: Source, sys: System, raises: bool)
    requires Inv(base, sys) && sys.job.Some?
    ensures Inv(base, Next(sys, Tick(raises)))
  {
    var c, job := sys.catalog, sys.job.value;
    hide StepJob, JobInv;
    match job.step
    case Fill(_) => FillStep(base, sys.src, c, job, raises);
    case Days(_) => DaysStep(base, sys.src, c, job, raises);
    case Mark(_) => DaysStep(base, sys.src, c, job, raises);
    case _ => SwapStep(base, sys.src, c, job, raises);
  }

  lemma MoreEventsKeep(t: Tab, base: Source, src: Source, src': Source, first: Day, last: Day)
    requires Extends(src, src') && CompleteThrough(t, base, src, first, last)
    ensures CompleteThrough(t, base, src', first, last)
  {
    forall d | first <= d <= last && base(d).rows != {}
      ensures d in t.days && base(d).rows <= t.days[d] <= src'(d).rows
    {
      assert src(d).rows <= src'(d).rows;
    }
  }

  lemma ArrivalKeepsInv(base: Source, sys: System, src: Source)
    requires Inv(base, sys) && Extends(sys.src, src)
    ensures Inv(base, sys.(src := src))
  {
    var c := sys.catalog;
    forall t, last | CompleteThrough(t, base, sys.src, c.first, last) ensures CompleteThrough(t, base, src, c.first, last) {
      MoreEventsKeep(t, base, sys.src, src, c.first, last);
    }
    forall d ensures base(d).rows <= src(d).rows {
      assert base(d).rows <= sys.src(d).rows <= src(d).rows;
    }
    hide CompleteThrough, Extends;
  }

  /** Main result: from any such state, whatever crashes, whatever renames fail and whatever events
      arrive meanwhile, a table survives that holds, through the watermark, every event of `base` and
      nothing Bronze does not hold; an absent SILVER next to BACKUP and REBUILD means REBUILD is such a
      table; and no run ever stops because a backup was left over. */
  lemma {:induction false} CompleteTableSurvives(base: Source, sys: System, actions: seq<Action>)
    requires Inv(base, sys)
    ensures var sys' := Run(sys, actions);
            && Inv(base, sys') && Survives(base, sys'.src, sys'.catalog)
            && (sys'.job.Some? ==> sys'.job.value.step != Failed(BackupLeftOver))
    decreases |actions|
  {
    if actions != [] {
      if actions[0].Tick? && sys.job.Some? {
        TickKeepsInv(base, sys, actions[0].raises);
      } else if actions[0].Arrive? && Extends(sys.src, actions[0].src) {
        ArrivalKeepsInv(base, sys, actions[0].src);
      }
      hide Inv, Next;
      CompleteTableSurvives(base, Next(sys, actions[0]), actions[1..]);
    }
  }

  /** The first deployment: a table complete through the watermark under its own name, of either
      layout, or no table and no day behind the watermark. */
  ghost predicate Deployed(sys: System) {
    && sys.job.None? && sys.catalog.backup.None? && sys.catalog.rebuild.None?
    && (if sys.catalog.silver.Some?
        then CompleteThrough(sys.catalog.silver.value, sys.src, sys.src, sys.catalog.first, sys.catalog.mark)
        else sys.catalog.mark < sys.catalog.first)
  }

  /** From there, nothing that Bronze held at deployment is ever missing. */
  lemma DeploymentLosesNothing(sys: System, actions: seq<Action>)
    requires Deployed(sys)
    ensures Survives(sys.src, Run(sys, actions).src, Run(sys, actions).catalog)
  {
    CompleteTableSurvives(sys.src, sys, actions);
  }

  // ---------------------------------------------------------------- late events

  /** Days from..last processed one after the other. */
  function ProcessDays(t: Tab, src: Source, from: Day, last: Day): Tab
    decreases 1 + last - from
  {
    if from > last then t else ProcessDay(ProcessDays(t, src, from, last - 1), src, last)
  }

  lemma {:induction false} ProcessedAt(t: Tab, src: Source, from: Day, last: Day, d: Day)
    ensures var after := ProcessDays(t, src, from, last);
            if from <= d <= last && src(d).rows != {} then d in after.days && after.days[d] == src(d).rows
            else (d in after.days <==> d in t.days) && (d in t.days ==> after.days[d] == t.days[d])
    decreases 1 + last - from
  {
    if from <= last {
      ProcessedAt(t, src, from, last - 1, d);
    }
  }

  function At(t: Tab, d: Day): set<int> {
    if d in t.days then t.days[d] else {}
  }

  /** The table holds exactly the events of the days first..last. */
  predicate Exact(t: Tab, src: Source, first: Day, last: Day) {
    forall d | first <= d <= last :: At(t, d) == src(d).rows
  }

  /** What the look-back corrects. The table was exact through the watermark for what Bronze held before,
      and holds nothing foreign above it; more events came in, and a run processed the days from `from`
      on again. It is exact again if and only if no day before `from` got an event. */
  lemma LookbackCatchesUpIff(t: Tab, before: Source, src: Source, first: Day, mark: Day, from: Day, last: Day)
    requires Extends(before, src) && Exact(t, before, first, mark)
    requires first <= from <= mark + 1 && mark <= last && forall d | mark < d <= last :: At(t, d) <= src(d).rows
    ensures Exact(ProcessDays(t, src, from, last), src, first, last)
       <==> forall d | first <= d < from :: src(d).rows == before(d).rows
  {
    var after := ProcessDays(t, src, from, last);
    forall d | first <= d <= last
      ensures At(after, d) == src(d).rows <==> from <= d || src(d).rows == before(d).rows
    {
      ProcessedAt(t, src, from, last, d);
      assert before(d).rows <= src(d).rows;
    }
    if Exact(after, src, first, last) {
      forall d | first <= d < from ensures src(d).rows == before(d).rows {
        assert At(after, d) == src(d).rows;
      }
    }
  }

  // ---------------------------------------------------------------- the job, uninterrupted

  /** Which end a rebuild comes to: every day must pass before the first rename. */
  ghost predicate AllPass(src: Source, from: Day, last: Day) {
    forall d | from <= d <= last && src(d).rows != {} :: src(d).passes
  }

  /** Which of the five renames raise: SILVER away, REBUILD in, BACKUP back, and the two of a recovery. */
  datatype Renames = Renames(away: bool, within: bool, back: bool, resume: bool, restore: bool)

  const NO_FAILURE := Renames(false, false, false, false, false)

  /** The first day with rows that do not pass. */
  function FirstFailing(src: Source, from: Day, last: Day): Option<Day>
    decreases 1 + last - from
  {
    if from > last then None
    else if src(from).rows != {} && !src(from).passes then Some(from)
    else FirstFailing(src, from + 1, last)
  }

  lemma {:induction false} NoneFailing(src: Source, from: Day, last: Day)
    ensures FirstFailing(src, from, last).None? <==> AllPass(src, from, last)
    ensures FirstFailing(src, from, last).Some? ==>
      var f := FirstFailing(src, from, last).value;
      from <= f <= last && src(f).rows != {} && !src(f).passes && AllPass(src, from, f - 1)
    decreases 1 + last - from
  {
    if from <= last {
      NoneFailing(src, from + 1, last);
    }
  }

  /** One day more: it fails, or it is processed and the rest decides. */
  lemma OneDay(t: Tab, src: Source, from: Day, d: Day, last: Day)
    ensures from <= d ==> ProcessDays(t, src, from, d) == ProcessDay(ProcessDays(t, src, from, d - 1), src, d)
    ensures from > d ==> ProcessDays(t, src, from, d) == t
    ensures d > last ==> FirstFailing(src, d, last).None?
    ensures d <= last ==>
      FirstFailing(src, d, last) == if Passes(src, d) then FirstFailing(src, d + 1, last) else Some(d)
  {
    hide ProcessDay;
  }

  /** The catalog after _rebuild_identity_table, in every outcome. */
  function Rebuild(src: Source, c: Catalog, end: Day, r: Renames): (Catalog, Option<Failure>) {
    var bad := FirstFailing(src, c.first, end);
    var filled := c.(rebuild := Some(ProcessDays(EMPTY, src, c.first, if bad.Some? then bad.value - 1 else end)));
    if c.backup.Some? then (c, Some(BackupLeftOver))
    else if bad.Some? then (filled, Some(QualityFailed))
    else if r.away then (filled, Some(RenameFailed))
    else if r.within then
      (if r.back then filled.(silver := None, backup := c.silver) else filled, Some(RenameFailed))
    else (filled.(silver := filled.rebuild, backup := c.silver, rebuild := None), None)
  }

  lemma AllFilled(src: Source, first: Day, end: Day, current: Day)
    requires end < current && (current <= end + 1 || current == first)
    ensures ProcessDays(EMPTY, src, first, current - 1) == ProcessDays(EMPTY, src, first, end)
  {
  }

  /** The catalog after _ensure_silver_table, in every outcome. */
  function Ensured(src: Source, c: Catalog, r: Renames): (Catalog, Option<Failure>) {
    var end := if c.mark < c.first then c.first - 1 else c.mark;
    match (c.silver, c.backup, c.rebuild)
    case (Some(t), _, _) => if t.identity then (c, None) else Rebuild(src, c, end, r)
    case (None, Some(_), Some(_)) =>
      if r.resume then (c, Some(RenameFailed)) else (c.(silver := c.rebuild, rebuild := None), None)
    case (None, Some(t), None) =>
      var restored := c.(silver := c.backup, backup := None);
      if r.restore then (c, Some(RenameFailed))
      else if t.identity then (restored, None)
      else Rebuild(src, restored, end, r)
    case (None, None, _) => (c.(silver := Some(EMPTY)), None)
  }

  /** The catalog after the days of a run, in every outcome: from two days before the watermark, or the
      first service day, up to the end or to the first day that fails. */
  function RanDays(src: Source, c: Catalog, endDate: Day): (Catalog, Option<Failure>) {
    if c.mark > endDate || c.silver.None? then (c, None)
    else
      var from := if c.mark - 2 < c.first then c.first else c.mark - 2;
      var bad := FirstFailing(src, from, endDate);
      var last := if bad.Some? then bad.value - 1 else endDate;
      (c.(silver := Some(ProcessDays(c.silver.value, src, from, last)), mark := if from <= last && c.mark < last then last else c.mark),
       if bad.Some? then Some(QualityFailed) else None)
  }

  /** A table complete for all of Bronze is complete for what Bronze held earlier. */
  lemma Rebuilt(base: Source, src: Source, first: Day, end: Day, mark: Day)
    requires Extends(base, src) && mark <= end
    ensures forall t | CompleteThrough(t, src, src, first, end) :: CompleteThrough(t, base, src, first, mark)
  {
    forall t | CompleteThrough(t, src, src, first, end) ensures CompleteThrough(t, base, src, first, mark) {
      forall d | first <= d <= mark && base(d).rows != {} ensures d in t.days && base(d).rows <= t.days[d] <= src(d).rows {
        assert base(d).rows <= src(d).rows;
      }
    }
  }

  /** A table filled from the first service day on holds every event of the days filled. */
  lemma {:induction false} FilledIsComplete(src: Source, first: Day, last: Day)
    ensures CompleteThrough(ProcessDays(EMPTY, src, first, last), src, src, first, last)
    ensures ProcessDays(EMPTY, src, first, last).identity
    decreases 1 + last - first
  {
    hide Passes;
    if first <= last {
      FilledIsComplete(src, first, last - 1);
      ProcessDayKeeps(ProcessDays(EMPTY, src, first, last - 1), src, src, first, last - 1, last);
    }
  }

  /** Processing days again, or the next ones without a gap, keeps a table complete, and through them. */
  lemma {:induction false} ProcessDaysKeep(t: Tab, base: Source, src: Source, first: Day, mark: Day, from: Day, last: Day)
    requires Extends(base, src) && CompleteThrough(t, base, src, first, mark) && from <= Max(mark, first - 1) + 1
    ensures ProcessDays(t, src, from, last).identity == t.identity
    ensures CompleteThrough(ProcessDays(t, src, from, last), base, src, first, mark)
    ensures from <= last ==> CompleteThrough(ProcessDays(t, src, from, last), base, src, first, Max(mark, last))
    decreases 1 + last - from
  {
    hide CompleteThrough, ProcessDay, Extends;
    if from <= last {
      ProcessDaysKeep(t, base, src, first, mark, from, last - 1);
      var before := ProcessDays(t, src, from, last - 1);
      SameLayout(before, src, last);
      ProcessDayKeeps(before, base, src, first, mark, last);
      ShorterToo(ProcessDay(before, src, last), base, src, first, last);
      if from < last {
        ProcessDayKeeps(before, base, src, first, Max(mark, last - 1), last);
      } else {
        AlsoBeforeTheStart(before, base, src, first, mark);
        ProcessDayKeeps(before, base, src, first, Max(mark, first - 1), last);
        AlsoBeforeTheStart(ProcessDay(before, src, last), base, src, first, last);
      }
    }
  }

  lemma SameLayout(t: Tab, src: Source, d: Day)
    ensures ProcessDay(t, src, d).identity == t.identity
  {
  }

  lemma ShorterToo(t: Tab, base: Source, src: Source, first: Day, last: Day)
    ensures CompleteThrough(t, base, src, first, last) ==> CompleteThrough(t, base, src, first, last - 1)
  {
  }

  /** Days before the first one ask for nothing. */
  lemma AlsoBeforeTheStart(t: Tab, base: Source, src: Source, first: Day, mark: Day)
    ensures CompleteThrough(t, base, src, first, mark) <==> CompleteThrough(t, base, src, first, Max(mark, first - 1))
  {
  }

  lemma RanDaysKeeps(base: Source, src: Source, c: Catalog, endDate: Day)
    requires Extends(base, src) && c.silver.Some? && c.silver.value.identity
    requires CompleteThrough(c.silver.value, base, src, c.first, c.mark)
    ensures var c' := RanDays(src, c, endDate).0;
            && c'.silver.Some? && c'.silver.value.identity
            && CompleteThrough(c'.silver.value, base, src, c.first, c'.mark)
  {
    hide CompleteThrough, Extends, ProcessDays, FirstFailing;
    if c.mark <= endDate {
      var from := if c.mark - 2 < c.first then c.first else c.mark - 2;
      var bad := FirstFailing(src, from, endDate);
      ProcessDaysKeep(c.silver.value, base, src, c.first, c.mark, from, if bad.Some? then bad.value - 1 else endDate);
    }
  }

  /** What every outcome of a rebuild means for the two tables. */
  lemma RebuildMeans(src: Source, c: Catalog, end: Day, r: Renames)
    requires c.silver.Some?
    ensures var (c', failure) := Rebuild(src, c, end, r);
            && failure == (if c.backup.Some? then Some(BackupLeftOver)
                           else if !AllPass(src, c.first, end) then Some(QualityFailed)
                           else if r.away || r.within then Some(RenameFailed) else None)
            && (failure.Some? && !(failure == Some(RenameFailed) && !r.away && r.back) ==>
                  c'.silver == c.silver && c'.backup == c.backup)
            && (failure == Some(RenameFailed) && !r.away && r.back ==> c'.silver.None? && c'.backup == c.silver)
            && (failure == Some(RenameFailed) ==>
                  c'.rebuild.Some? && c'.rebuild.value.identity && CompleteThrough(c'.rebuild.value, src, src, c.first, end))
            && (failure.None? ==>
                  && c'.rebuild.None? && c'.backup == c.silver
                  && c'.silver.Some? && c'.silver.value.identity && CompleteThrough(c'.silver.value, src, src, c.first, end))
  {
    NoneFailing(src, c.first, end);
    FilledIsComplete(src, c.first, end);
    hide CompleteThrough, ProcessDays, FirstFailing, AllPass;
  }

  class BikemanCatalog {
    const first: Day
    var silver: Option<Tab>
    var backup: Option<Tab>
    var rebuild: Option<Tab>
    var mark: Day

    function View(): Catalog
      reads this
    {
      Catalog(silver, backup, rebuild, mark, first)
    }

    constructor (first: Day, silver: Option<Tab>, mark: Day)
      ensures View() == Catalog(silver, None, None, mark, first)
    {
      this.first, this.silver, backup, rebuild, this.mark := first, silver, None, None, mark;
    }

    /** Fills a new table completely before it touches the old one. A failing second rename puts the old
        table back under its name; when that fails too, SILVER is absent beside the old and the new table. */
    method RebuildIdentityTable(src: Source, endDate: Day, raises: Renames) returns (failure: Option<Failure>)
      requires silver.Some? && !silver.value.identity
      modifies this`silver, this`backup, this`rebuild
      ensures failure == if old(backup).Some? then Some(BackupLeftOver)
                         else if !AllPass(src, first, endDate) then Some(QualityFailed)
                         else if raises.away || raises.within then Some(RenameFailed) else None
      ensures failure.Some? && !(failure == Some(RenameFailed) && !raises.away && raises.back) ==>
        silver == old(silver) && backup == old(backup)
      ensures failure == Some(RenameFailed) && !raises.away && raises.back ==>
        silver.None? && backup == old(silver)
      ensures failure == Some(RenameFailed) ==>
        rebuild.Some? && rebuild.value.identity && CompleteThrough(rebuild.value, src, src, first, endDate)
      ensures failure.None? ==> rebuild.None? && backup == old(silver)
      ensures failure.None? ==> silver.Some? && silver.value.identity && CompleteThrough(silver.value, src, src, first, endDate)
      ensures (View(), failure) == Rebuild(src, old(View()), endDate, raises)
    {
      hide CompleteThrough, ProcessDay, ProcessDays, FirstFailing, Passes, AllPass, Extends;
      RebuildMeans(src, View(), endDate, raises);
      if backup.Some? {
        return Some(BackupLeftOver);
      }
      OneDay(EMPTY, src, first, first - 1, endDate);
      if rebuild.Some? {
        rebuild := None;
      }
      var table := EMPTY;
      rebuild := Some(table);
      var current := first;
      while current <= endDate
        invariant first <= current
        invariant silver == old(silver) && backup == old(backup)
        invariant rebuild == Some(table)
        invariant current <= endDate + 1 || current == first
        invariant table == ProcessDays(EMPTY, src, first, current - 1)
        invariant FirstFailing(src, current, endDate) == FirstFailing(src, first, endDate)
      {
        OneDay(EMPTY, src, first, current, endDate);
        if !Passes(src, current) {
          return Some(QualityFailed);
        }
        table := ProcessDay(table, src, current);
        rebuild := Some(table);
        current := current + 1;
      }
      OneDay(EMPTY, src, first, current, endDate);
      AllFilled(src, first, endDate, current);
      if raises.away {
        return Some(RenameFailed);
      }
      backup, silver := silver, None;
      if raises.within {
        if !raises.back {
          silver, backup := backup, None;
        }
        return Some(RenameFailed);
      }
      silver, rebuild := rebuild, None;
      return None;
    }

    /** From every state a crash can leave behind, one uninterrupted call ends with a complete
        identity-partitioned SILVER, unless a day fails its check or a rename fails; and then the state
        is again one that the next call repairs. */
    method EnsureSilverTable(ghost base: Source, src: Source, raises: Renames) returns (failure: Option<Failure>)
      requires CatalogInv(base, src, View())
      modifies this`silver, this`backup, this`rebuild
      ensures CatalogInv(base, src, View()) && failure != Some(BackupLeftOver)
      ensures failure.None? ==> silver.Some? && silver.value.identity && CompleteThrough(silver.value, base, src, first, mark)
      ensures raises == NO_FAILURE && AllPass(src, first, Max(mark, first - 1)) ==> failure.None?
      ensures (View(), failure) == Ensured(src, old(View()), raises)
    {
      if silver.None? {
        if backup.Some? && rebuild.Some? {
          if raises.resume {
            return Some(RenameFailed);
          }
          silver, rebuild := rebuild, None;
          return None;
        }
        if backup.None? {
          silver := Some(EMPTY);
          return None;
        }
        if raises.restore {
          return Some(RenameFailed);
        }
        silver, backup := backup, None;
      }
      if silver.value.identity {
        return None;
      }
      failure := RebuildIdentityTable(src, Max(mark, first - 1), raises);
      Rebuilt(base, src, first, Max(mark, first - 1), mark);
    }

    /** The daily run: recent days again, then new ones, moving the watermark after each new day. When it
        ends well, the days from the look-back on hold what Bronze holds now. */
    method RunDays(ghost base: Source, src: Source, endDate: Day) returns (failure: Option<Failure>)
      requires Extends(base, src)
      requires silver.Some? && silver.value.identity && CompleteThrough(silver.value, base, src, first, mark)
      modifies this`silver, this`mark
      ensures silver.Some? && silver.value.identity && CompleteThrough(silver.value, base, src, first, mark)
      ensures old(mark) <= mark <= Max(old(mark), endDate)
      ensures failure.None? && old(mark) < endDate && first <= endDate ==> mark == endDate
      ensures failure.None? <==> old(mark) > endDate || AllPass(src, Max(old(mark) - 2, first), endDate)
      ensures (View(), failure) == RanDays(src, old(View()), endDate)
    {
      hide CompleteThrough, Extends, ProcessDay, ProcessDays, FirstFailing, Passes, AllPass;
      RanDaysKeeps(base, src, View(), endDate);
      if mark > endDate {
        return None;
      }
      var start := mark + 1;
      var reprocess := Max(start - LOOKBACK_DAYS, first);
      NoneFailing(src, reprocess, endDate);
      OneDay(silver.value, src, reprocess, reprocess - 1, endDate);
      var current := reprocess;
      while current <= endDate
        invariant reprocess <= current
        invariant silver.Some? && silver.value == ProcessDays(old(silver.value), src, reprocess, current - 1)
        invariant mark == if current <= start then old(mark) else if current == reprocess then old(mark) else current - 1
        invariant reprocess < current ==> current <= endDate + 1
        invariant FirstFailing(src, current, endDate) == FirstFailing(src, reprocess, endDate)
      {
        OneDay(old(silver.value), src, reprocess, current, endDate);
        if !Passes(src, current) {
          return Some(QualityFailed);
        }
        silver := Some(ProcessDay(silver.value, src, current));
        if current >= start {
          mark := current;
        }
        current := current + 1;
      }
      OneDay(old(silver.value), src, reprocess, current, endDate);
      OneDay(old(silver.value), src, reprocess, endDate, endDate);
      return None;
    }
  }
}
