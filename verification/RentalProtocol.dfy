/** The Bronze-to-Silver rental-history protocol as a state machine over its atomic steps.

    Planners, chunk jobs, finalizers, daily runs and manual empty-day approvals are scheduled in any
    order, each read or write of a stored cell and each table commit being one step, so a watermark
    may change between a job's read and its write, a plan may be stale, and a job may die after any
    step. A run is a sequence of scheduler choices. (staging/jobs/transform_silver_rental_history.py,
    ingestion/jobs/compute_silver_rental_history_backfill_ranges.py,
    ingestion/jobs/advance_silver_rental_history_watermark.py,
    ingestion/jobs/confirm_rental_history_empty.py) */
module RentalProtocol {
  import opened Basics
  import opened IcebergTable
  import opened RentalTransform
  import opened BackfillPlan

  const CONTRACT_VERSION := 1

  /** The shared storage. `origin` is the backfill start. `settled` (days whose Bronze rows are final) is
      bookkeeping that no job reads. */
  datatype Store = Store(
    origin: Day,
    bronze: set<BronzeRow>, silver: set<SilverRow>, quarantine: set<QuarantineRow>,
    markers: map<MarkerKey, Marker>, bronzeMark: Day, silverMark: Day,
    settled: set<Day>)

  datatype Plan = Plan(from: Day, to: Day, ranges: seq<Range>)

  /** How far _process_range got; before BothWritten a table may still hold the old rows. */
  datatype Phase = Reading | Computed(out: Output) | QuarantineWritten(out: Output) | BothWritten

  datatype DailyStep =
    | ReadBronzeMark
    | ReadSilverMark(bronze: Day)
    | Confirmed(range: Range, phase: Phase)
    | CurrentDay(confirmed: Option<Day>, phase: Phase)
    | Advance(to: Option<Day>)

  /** A running job with its local variables. */
  datatype Job =
    | Planner(chunkDays: int, cap: Option<int>, bronzeSeen: Option<Day>)
    | Chunk(range: Range, maxRatio: real, phase: Phase)
    | Finalizer(plan: Plan, before: Option<Day>, next: nat, after: Day)
    | Daily(maxDays: int, current: Option<Day>, maxRatio: real, step: DailyStep)
    | EmptyApproval(target: Day, cleared: bool, bronzeRead: Option<Day>, silverRead: Option<Day>, bronzeWritten: bool)
    | Finished

  datatype System = System(store: Store, jobs: map<nat, Job>, plans: set<Plan>)

  datatype Action =
    | Spawn(id: nat, job: Job)
    | Tick(id: nat)
    | Crash(id: nat)
    | CommitBronze(days: set<Day>, rows: set<BronzeRow>)
    | Settle(day: Day)
    | MoveBronzeMark(to: Day)

  // ---------------------------------------------------------------- job steps

  function WriteQuarantine(st: Store, range: Range, out: Output): Store {
    st.(quarantine := ReplaceRange(st.quarantine, QuarantinePartitionOf, out.quarantine, range.start, range.end))
  }

  function WriteSilver(st: Store, range: Range, out: Output): Store {
    st.(silver := ReplaceRange(st.silver, PartitionOf, out.clean, range.start, range.end))
  }

  /** One step of _process_range: read and compute, quarantine commit, Silver commit. None is an error. */
  function StepPhase(st: Store, range: Range, maxRatio: real, phase: Phase): (Store, Option<Phase>) {
    match phase
    case Reading =>
      var result := Transform(InRange(st.bronze, range.start, range.end), maxRatio);
      (st, if result.Ok? then Some(Computed(result.value)) else None)
    case Computed(out) => (WriteQuarantine(st, range, out), Some(QuarantineWritten(out)))
    case QuarantineWritten(out) => (WriteSilver(st, range, out), Some(BothWritten))
    case BothWritten => (st, Some(BothWritten))
  }

  function StepChunk(st: Store, job: Job): (Store, Job)
    requires job.Chunk?
  {
    if job.phase.BothWritten? then
      (st.(markers := WriteCompletion(st.markers, job.range, CONTRACT_VERSION)), Finished)
    else
      var (st', phase) := StepPhase(st, job.range, job.maxRatio, job.phase);
      (st', if phase.None? then Finished else job.(phase := phase.value))
  }

  function StepFinalizer(st: Store, job: Job): (Store, Job)
    requires job.Finalizer?
  {
    if job.before.None? then
      (st, job.(before := Some(st.silverMark), next := 0, after := st.silverMark))
    else if job.next < |job.plan.ranges| then
      var chunk := job.plan.ranges[job.next];
      if chunk.end <= job.before.value then (st, job.(next := job.next + 1))
      else if IsRangeComplete(st.markers, chunk, CONTRACT_VERSION) then
        (st, job.(next := job.next + 1, after := chunk.end))
      else (st, job.(next := |job.plan.ranges|))
    else
      (if job.after > job.before.value then st.(silverMark := job.after) else st, Finished)
  }

  function StepDaily(st: Store, job: Job): (Store, Job)
    requires job.Daily?
  {
    match job.step
    case ReadBronzeMark => (st, job.(step := ReadSilverMark(st.bronzeMark)))
    case ReadSilverMark(bronze) =>
      var range := Range(st.silverMark + 1, Min(bronze, st.silverMark + job.maxDays));
      (st, job.(step := if range.start <= range.end then Confirmed(range, Reading) else CurrentDay(None, Reading)))
    case Confirmed(range, phase) =>
      if phase.BothWritten? then (st, job.(step := CurrentDay(Some(range.end), Reading)))
      else
        var (st', phase') := StepPhase(st, range, job.maxRatio, phase);
        (st', if phase'.None? then Finished else job.(step := Confirmed(range, phase'.value)))
    case CurrentDay(confirmed, phase) =>
      if job.current.None? || phase.BothWritten? then (st, job.(step := Advance(confirmed)))
      else
        var day := job.current.value;
        var (st', phase') := StepPhase(st, Range(day, day), job.maxRatio, phase);
        (st', if phase'.None? then Finished else job.(step := CurrentDay(confirmed, phase'.value)))
    case Advance(to) => (if to.Some? then st.(silverMark := to.value) else st, Finished)
  }

  /** Read both watermarks, check contiguity (and what the manifests and an existing marker said, which
      is `cleared`), write Bronze, write Silver. A refused approval leaves nothing behind; the first write
      settles the day. */
  function StepApproval(st: Store, job: Job): (Store, Job)
    requires job.EmptyApproval?
  {
    var t := job.target;
    if job.bronzeRead.None? then (st, job.(bronzeRead := Some(st.bronzeMark)))
    else if job.silverRead.None? then
      if job.cleared && job.bronzeRead.value in {t - 1, t} && st.silverMark in {t - 1, t}
      then (st, job.(silverRead := Some(st.silverMark)))
      else (st, Finished)
    else if !job.bronzeWritten then
      var settled := st.(settled := st.settled + {t});
      (if job.bronzeRead.value < t then settled.(bronzeMark := t) else settled, job.(bronzeWritten := true))
    else
      (if job.silverRead.value < t then st.(silverMark := t) else st, Finished)
  }

  /** build_plan, from the two watermarks this planner read. */
  function MakePlan(silver: Day, bronze: Day, chunkDays: int, cap: Option<int>): Plan
    requires chunkDays >= 1
  {
    var to := PlanEnd(silver, bronze, cap);
    Plan(silver, to, Chunks(silver + 1, to, chunkDays))
  }

  function StepJob(st: Store, job: Job): (Store, Job, set<Plan>) {
    match job
    case Planner(chunkDays, cap, seen) =>
      if seen.None? then (st, job.(bronzeSeen := Some(st.bronzeMark)), {})
      else if chunkDays < 1 then (st, Finished, {})
      else (st, Finished, {MakePlan(st.silverMark, seen.value, chunkDays, cap)})
    case Chunk(_, _, _) => var (st', job') := StepChunk(st, job); (st', job', {})
    case Finalizer(_, _, _, _) => var (st', job') := StepFinalizer(st, job); (st', job', {})
    case Daily(_, _, _, _) => var (st', job') := StepDaily(st, job); (st', job', {})
    case EmptyApproval(_, _, _, _, _) => var (st', job') := StepApproval(st, job); (st', job', {})
    case Finished => (st, job, {})
  }

  // ---------------------------------------------------------------- scheduling

  /** How a job may begin: chunks and finalizers come from some plan ever issued, however old. */
  predicate MayStart(sys: System, job: Job) {
    match job
    case Planner(_, _, seen) => seen == None
    case Chunk(range, _, phase) => phase == Reading && exists plan | plan in sys.plans :: range in plan.ranges
    case Finalizer(plan, before, _, _) => plan in sys.plans && before == None
    case Daily(_, _, _, step) => step == ReadBronzeMark
    case EmptyApproval(_, _, bronzeRead, silverRead, written) => bronzeRead == silverRead == None && !written
    case Finished => true
  }

  predicate Enabled(sys: System, a: Action) {
    match a
    case Spawn(id, job) => id !in sys.jobs && MayStart(sys, job)
    case Tick(id) => id in sys.jobs
    case Crash(id) => id in sys.jobs
    case CommitBronze(days, rows) =>
      && days !! sys.store.settled
      && (forall r | r in rows :: r.partition in days)
    case Settle(_) => true
    case MoveBronzeMark(to) =>
      && to >= sys.store.origin
      && (forall d | sys.store.origin < d <= to :: d in sys.store.settled)
  }

  function Next(sys: System, a: Action): System {
    if !Enabled(sys, a) then sys
    else
      match a
      case Spawn(id, job) =>
        sys.(jobs := sys.jobs[id := job])
      case Tick(id) =>
        var (st, job, plans) := StepJob(sys.store, sys.jobs[id]);
        System(st, sys.jobs[id := job], sys.plans + plans)
      case Crash(id) => sys.(jobs := sys.jobs - {id})
      case CommitBronze(days, rows) =>
        sys.(store := sys.store.(
          bronze := (set r | r in sys.store.bronze && r.partition !in days) + rows))
      case Settle(day) => sys.(store := sys.store.(settled := sys.store.settled + {day}))
      case MoveBronzeMark(to) => sys.(store := sys.store.(bronzeMark := to))
  }

  function Run(sys: System, actions: seq<Action>): System
    decreases |actions|
  {
    if actions == [] then sys else Run(Next(sys, actions[0]), actions[1..])
  }

  // ---------------------------------------------------------------- what is promised

  ghost predicate SilverExact(st: Store, d: Day) {
    OnDay(st.silver, PartitionOf, d) == Clean(InRange(st.bronze, d, d))
  }

  ghost predicate QuarantineExact(st: Store, d: Day) {
    OnDay(st.quarantine, QuarantinePartitionOf, d) == Quarantined(InRange(st.bronze, d, d))
  }

  /** Day d is final: its Bronze rows are, and both Silver tables hold exactly what they give. */
  ghost predicate Done(st: Store, d: Day) {
    d in st.settled && SilverExact(st, d) && QuarantineExact(st, d)
  }

  ghost predicate DoneThrough(st: Store, mark: Day) {
    forall d | st.origin < d <= mark :: Done(st, d)
  }

  ghost predicate DoneRange(st: Store, range: Range) {
    forall d | range.start <= d <= range.end :: Done(st, d)
  }

  ghost predicate SettledThrough(st: Store, mark: Day) {
    forall d | st.origin < d <= mark :: d in st.settled
  }

  ghost predicate SettledRange(st: Store, range: Range) {
    forall d | range.start <= d <= range.end :: d in st.settled
  }

  /** The safety property: everything at or below the Silver watermark, and everything a COMPLETE
      chunk marker claims, is done. */
  ghost predicate Safe(st: Store) {
    && DoneThrough(st, st.silverMark)
    && (forall r | IsRangeComplete(st.markers, r, CONTRACT_VERSION) :: DoneRange(st, r))
  }

  /** No table holds a row of the day: what the evidence for an empty-day approval stands for. */
  predicate NothingOn(st: Store, d: Day) {
    && InRange(st.bronze, d, d) == {}
    && OnDay(st.silver, PartitionOf, d) == {} && OnDay(st.quarantine, QuarantinePartitionOf, d) == {}
  }

  /** The schedule never commits a current-day (T0) result after that day has settled, lets an approval
      write only while its day is empty, and Bronze always keeps one partition date per (bike, rent
      time). */
  ghost predicate TimelyStep(sys: System, a: Action) {
    && ((a.Tick? && a.id in sys.jobs) ==> TimelyJob(sys.store, sys.jobs[a.id]))
    && Consistent(Next(sys, a).store.bronze)
  }

  predicate WritesCurrentDay(job: Job) {
    && job.Daily? && job.step.CurrentDay? && job.current.Some?
    && (job.step.phase.Computed? || job.step.phase.QuarantineWritten?)
  }

  /** The accepted approval of a day the Silver watermark has not passed is about to write. */
  predicate WritesApproval(job: Job) {
    job.EmptyApproval? && !job.bronzeWritten && job.bronzeRead.Some? && job.silverRead.Some? && job.silverRead.value < job.target
  }

  ghost predicate TimelyJob(st: Store, job: Job) {
    && (WritesCurrentDay(job) ==> job.current.value !in st.settled)
    && (WritesApproval(job) ==> NothingOn(st, job.target))
  }

  ghost predicate Timely(sys: System, actions: seq<Action>)
    decreases |actions|
  {
    actions != [] ==> TimelyStep(sys, actions[0]) && Timely(Next(sys, actions[0]), actions[1..])
  }

  // ---------------------------------------------------------------- the invariant

  ghost predicate StoreInv(st: Store) {
    && Consistent(st.bronze)
    && st.origin <= st.bronzeMark && st.origin <= st.silverMark
    && SettledThrough(st, st.bronzeMark)
    && Safe(st)
  }

  /** A computed result lies in its range; OutputExact: it is exact wherever the day is settled. */
  ghost predicate OutputInv(st: Store, range: Range, out: Output) {
    && Within(out.clean, PartitionOf, range.start, range.end)
    && Within(out.quarantine, QuarantinePartitionOf, range.start, range.end)
  }

  ghost predicate OutputExact(st: Store, range: Range, out: Output) {
    forall d | range.start <= d <= range.end && d in st.settled ::
      && OnDay(out.clean, PartitionOf, d) == Clean(InRange(st.bronze, d, d))
      && OnDay(out.quarantine, QuarantinePartitionOf, d) == Quarantined(InRange(st.bronze, d, d))
  }

  ghost predicate PhaseInv(st: Store, range: Range, phase: Phase) {
    && SettledRange(st, range)
    && (match phase
        case Reading => true
        case Computed(out) => OutputInv(st, range, out) && OutputExact(st, range, out)
        case QuarantineWritten(out) =>
          && OutputInv(st, range, out) && OutputExact(st, range, out)
          && (forall d | range.start <= d <= range.end :: QuarantineExact(st, d))
        case BothWritten => DoneRange(st, range))
  }

  ghost predicate CurrentPhaseInv(st: Store, day: Day, phase: Phase) {
    match phase
    case Computed(out) => OutputInv(st, Range(day, day), out)
    case QuarantineWritten(out) => OutputInv(st, Range(day, day), out)
    case _ => true
  }

  ghost predicate PlanInv(st: Store, plan: Plan) {
    && st.origin <= plan.from
    && Contiguous(plan.ranges, plan.from + 1, plan.to)
    && DoneThrough(st, plan.from)
    && SettledThrough(st, plan.to)
  }

  ghost predicate JobInv(st: Store, job: Job) {
    match job
    case Planner(_, _, seen) => seen.Some? ==> SettledThrough(st, seen.value)
    case Chunk(range, _, phase) => PhaseInv(st, range, phase)
    case Finalizer(plan, before, next, after) =>
      && PlanInv(st, plan)
      && (before.Some? ==>
            && st.origin <= before.value <= after
            && DoneThrough(st, after)
            && next <= |plan.ranges|
            && (next < |plan.ranges| ==> DoneThrough(st, plan.ranges[next].start - 1)))
    case Daily(_, current, _, step) =>
      (match step
       case ReadBronzeMark => true
       case ReadSilverMark(bronze) => SettledThrough(st, bronze)
       case Confirmed(range, phase) =>
         st.origin < range.start && DoneThrough(st, range.start - 1) && range.start <= range.end && PhaseInv(st, range, phase)
       case CurrentDay(confirmed, phase) =>
         && (confirmed.Some? ==> st.origin <= confirmed.value && DoneThrough(st, confirmed.value))
         && (current.Some? ==> CurrentPhaseInv(st, current.value, phase))
       case Advance(to) => to.Some? ==> st.origin <= to.value && DoneThrough(st, to.value))
    case EmptyApproval(t, _, bronzeRead, silverRead, written) =>
      && (written ==> silverRead.Some? && (silverRead.value < t ==> Done(st, t)))
      && (bronzeRead.Some? ==> st.origin <= bronzeRead.value && SettledThrough(st, bronzeRead.value))
      && (silverRead.Some? ==> bronzeRead.Some? && bronzeRead.value in {t - 1, t})
      && (silverRead.Some? ==> st.origin <= silverRead.value && DoneThrough(st, silverRead.value) && silverRead.value in {t - 1, t})
    case Finished => true
  }

  ghost predicate Inv(sys: System) {
    && StoreInv(sys.store)
    && (forall id | id in sys.jobs :: JobInv(sys.store, sys.jobs[id]))
    && (forall plan | plan in sys.plans :: PlanInv(sys.store, plan))
  }

  // ---------------------------------------------------------------- monotonicity

  /** What every step keeps: settled days stay settled with the same Bronze rows, and an exact settled
      day stays exact. */
  ghost predicate Grows(a: Store, b: Store) {
    && a.origin == b.origin
    && a.settled <= b.settled
    && (forall d | d in a.settled :: InRange(b.bronze, d, d) == InRange(a.bronze, d, d))
    && (forall d | d in a.settled && SilverExact(a, d) :: SilverExact(b, d))
    && (forall d | d in a.settled && QuarantineExact(a, d) :: QuarantineExact(b, d))
  }

  lemma DoneStays(a: Store, b: Store, mark: Day)
    requires Grows(a, b) && DoneThrough(a, mark)
    ensures DoneThrough(b, mark)
  {
    forall d | b.origin < d <= mark ensures Done(b, d) {
      assert Done(a, d);
    }
  }

  lemma DoneRangeStays(a: Store, b: Store, range: Range)
    requires Grows(a, b) && DoneRange(a, range)
    ensures DoneRange(b, range)
  {
    forall d | range.start <= d <= range.end ensures Done(b, d) {
      assert Done(a, d);
    }
  }

  lemma PhaseStays(a: Store, b: Store, range: Range, phase: Phase)
    requires Grows(a, b) && PhaseInv(a, range, phase)
    ensures PhaseInv(b, range, phase)
  {
    if phase.BothWritten? {
      DoneRangeStays(a, b, range);
    }
  }

  lemma PlanStays(a: Store, b: Store, plan: Plan)
    requires Grows(a, b) && PlanInv(a, plan)
    ensures PlanInv(b, plan)
  {
    DoneStays(a, b, plan.from);
  }

  lemma JobStays(a: Store, b: Store, job: Job)
    requires Grows(a, b) && JobInv(a, job)
    ensures JobInv(b, job)
  {
    match job
    case Planner(_, _, _) =>
    case Chunk(range, _, phase) => PhaseStays(a, b, range, phase);
    case Finalizer(plan, before, next, after) =>
      PlanStays(a, b, plan);
      if before.Some? {
        DoneStays(a, b, after);
        if next < |plan.ranges| {
          DoneStays(a, b, plan.ranges[next].start - 1);
        }
      }
    case Daily(_, _, _, step) =>
      match step {
        case ReadBronzeMark =>
        case ReadSilverMark(_) =>
        case Confirmed(range, phase) =>
          PhaseStays(a, b, range, phase);
          DoneStays(a, b, range.start - 1);
        case CurrentDay(confirmed, _) =>
          if confirmed.Some? {
            DoneStays(a, b, confirmed.value);
          }
        case Advance(to) =>
          if to.Some? {
            DoneStays(a, b, to.value);
          }
      }
    case EmptyApproval(_, _, _, silverRead, _) =>
      if silverRead.Some? {
        DoneStays(a, b, silverRead.value);
      }
    case Finished =>
  }

  // ---------------------------------------------------------------- table commits

  lemma QuarantineCommit(st: Store, range: Range, out: Output)
    requires StoreInv(st) && OutputInv(st, range, out) && OutputExact(st, range, out)
    ensures var st' := WriteQuarantine(st, range, out);
            && Grows(st, st')
            && (forall d | range.start <= d <= range.end && d in st.settled :: QuarantineExact(st', d))
  {
    var st' := WriteQuarantine(st, range, out);
    forall d | d in st.settled
      ensures QuarantineExact(st, d) ==> QuarantineExact(st', d)
      ensures range.start <= d <= range.end ==> QuarantineExact(st', d)
    {
      ReplacedDay(st.quarantine, QuarantinePartitionOf, out.quarantine, range.start, range.end, d);
    }
  }

  lemma SilverCommit(st: Store, range: Range, out: Output)
    requires StoreInv(st) && OutputInv(st, range, out) && OutputExact(st, range, out)
    ensures var st' := WriteSilver(st, range, out);
            && Grows(st, st')
            && (forall d | range.start <= d <= range.end && d in st.settled :: SilverExact(st', d))
  {
    var st' := WriteSilver(st, range, out);
    forall d | d in st.settled
      ensures SilverExact(st, d) ==> SilverExact(st', d)
      ensures range.start <= d <= range.end ==> SilverExact(st', d)
    {
      ReplacedDay(st.silver, PartitionOf, out.clean, range.start, range.end, d);
    }
  }

  lemma SafetyStays(st: Store, st': Store)
    requires StoreInv(st) && Grows(st, st')
    requires st'.silverMark == st.silverMark && st'.markers == st.markers
    ensures Safe(st')
  {
    DoneStays(st, st', st.silverMark);
    forall r | IsRangeComplete(st'.markers, r, CONTRACT_VERSION) ensures DoneRange(st', r) {
      DoneRangeStays(st, st', r);
    }
  }

  lemma ComputedIsExact(st: Store, range: Range, maxRatio: real)
    requires StoreInv(st)
    requires Transform(InRange(st.bronze, range.start, range.end), maxRatio).Ok?
    ensures var out := Transform(InRange(st.bronze, range.start, range.end), maxRatio).value;
            OutputInv(st, range, out) && OutputExact(st, range, out)
  {
    var rows := InRange(st.bronze, range.start, range.end);
    RangeStaysInside(st.bronze, range.start, range.end);
    forall d | range.start <= d <= range.end
      ensures OnDay(Clean(rows), PartitionOf, d) == Clean(InRange(st.bronze, d, d))
      ensures OnDay(Quarantined(rows), QuarantinePartitionOf, d) == Quarantined(InRange(st.bronze, d, d))
    {
      ChunkIndependence(st.bronze, range.start, range.end, d);
    }
  }

  // ---------------------------------------------------------------- one step of each job

  lemma SilverWriteKeepsStore(st: Store, range: Range, out: Output)
    requires StoreInv(st) && OutputInv(st, range, out) && OutputExact(st, range, out)
    ensures StoreInv(WriteSilver(st, range, out))
  {
    SilverCommit(st, range, out);
    SafetyStays(st, WriteSilver(st, range, out));
  }

  lemma QuarantineWriteKeepsStore(st: Store, range: Range, out: Output)
    requires StoreInv(st) && OutputInv(st, range, out) && OutputExact(st, range, out)
    ensures StoreInv(WriteQuarantine(st, range, out))
  {
    QuarantineCommit(st, range, out);
    SafetyStays(st, WriteQuarantine(st, range, out));
  }

  lemma PhaseStep(st: Store, range: Range, maxRatio: real, phase: Phase)
    requires StoreInv(st) && PhaseInv(st, range, phase)
    ensures var (st', phase') := StepPhase(st, range, maxRatio, phase);
            && StoreInv(st') && Grows(st, st')
            && (phase'.Some? ==> PhaseInv(st', range, phase'.value))
  {
    match phase
    case Reading =>
      if Transform(InRange(st.bronze, range.start, range.end), maxRatio).Ok? {
        ComputedIsExact(st, range, maxRatio);
      }
    case Computed(out) =>
      QuarantineCommit(st, range, out);
      QuarantineWriteKeepsStore(st, range, out);
    case QuarantineWritten(out) =>
      SilverCommit(st, range, out);
      SilverWriteKeepsStore(st, range, out);
    case BothWritten =>
  }

  /** A current-day write on an unsettled day promises nothing, so it cannot break anything. */
  lemma CurrentPhaseStep(st: Store, day: Day, maxRatio: real, phase: Phase)
    requires StoreInv(st) && CurrentPhaseInv(st, day, phase)
    requires phase.Computed? || phase.QuarantineWritten? ==> day !in st.settled
    ensures var (st', phase') := StepPhase(st, Range(day, day), maxRatio, phase);
            && StoreInv(st') && Grows(st, st')
            && (phase'.Some? ==> CurrentPhaseInv(st', day, phase'.value))
  {
    var range := Range(day, day);
    match phase
    case Reading =>
      if Transform(InRange(st.bronze, day, day), maxRatio).Ok? {
        ComputedIsExact(st, range, maxRatio);
      }
    case Computed(out) =>
      QuarantineCommit(st, range, out);
      QuarantineWriteKeepsStore(st, range, out);
    case QuarantineWritten(out) =>
      SilverCommit(st, range, out);
      SilverWriteKeepsStore(st, range, out);
    case BothWritten =>
  }

  lemma ChunkStep(st: Store, job: Job)
    requires job.Chunk? && StoreInv(st) && JobInv(st, job)
    ensures var (st', job') := StepChunk(st, job);
            StoreInv(st') && Grows(st, st') && JobInv(st', job')
  {
    if job.phase.BothWritten? {
      var st' := StepChunk(st, job).0;
      forall r | IsRangeComplete(st'.markers, r, CONTRACT_VERSION)
        ensures DoneRange(st', r)
      {
        CompletionIsExact(st.markers, job.range, CONTRACT_VERSION, r, CONTRACT_VERSION);
        DoneRangeStays(st, st', r);
      }
      DoneStays(st, st', st.silverMark);
    } else {
      PhaseStep(st, job.range, job.maxRatio, job.phase);
    }
  }

  lemma MoveSilverMark(st: Store, to: Day)
    requires StoreInv(st) && st.origin <= to && DoneThrough(st, to)
    ensures StoreInv(st.(silverMark := to)) && Grows(st, st.(silverMark := to))
  {
    var st' := st.(silverMark := to);
    DoneStays(st, st', to);
    forall r | IsRangeComplete(st'.markers, r, CONTRACT_VERSION) ensures DoneRange(st', r) {
      DoneRangeStays(st, st', r);
    }
  }

  /** Skipping a covered chunk or passing a complete one keeps the finished prefix contiguous. */
  lemma FinalizerPasses(st: Store, plan: Plan, next: nat, after: Day)
    requires PlanInv(st, plan) && next < |plan.ranges|
    requires DoneThrough(st, after) && DoneThrough(st, plan.ranges[next].start - 1)
    requires plan.ranges[next].end <= after || DoneRange(st, plan.ranges[next])
    ensures DoneThrough(st, plan.ranges[next].end)
    ensures next + 1 < |plan.ranges| ==> DoneThrough(st, plan.ranges[next + 1].start - 1)
  {
    var chunk := plan.ranges[next];
    forall d | st.origin < d <= chunk.end ensures Done(st, d) {
    }
    if next + 1 < |plan.ranges| {
      Follows(plan.ranges, plan.from + 1, plan.to, next + 1);
    }
  }

  lemma FinalizerStep(st: Store, job: Job)
    requires job.Finalizer? && StoreInv(st) && JobInv(st, job)
    ensures var (st', job') := StepFinalizer(st, job);
            StoreInv(st') && Grows(st, st') && JobInv(st', job')
  {
    var ranges := job.plan.ranges;
    if job.before.None? {
      if ranges != [] {
        Follows(ranges, job.plan.from + 1, job.plan.to, 0);
      }
    } else if job.next < |ranges| {
      var chunk := ranges[job.next];
      if chunk.end <= job.before.value || IsRangeComplete(st.markers, chunk, CONTRACT_VERSION) {
        FinalizerPasses(st, job.plan, job.next, job.after);
      }
    } else if job.after > job.before.value {
      MoveSilverMark(st, job.after);
    }
  }

  lemma DailyStepKeeps(st: Store, job: Job)
    requires job.Daily? && StoreInv(st) && JobInv(st, job) && TimelyJob(st, job)
    ensures var (st', job') := StepDaily(st, job);
            StoreInv(st') && Grows(st, st') && JobInv(st', job')
  {
    hide SilverExact, QuarantineExact, Transform;
    match job.step
    case ReadBronzeMark =>
    case ReadSilverMark(_) =>
    case Confirmed(range, phase) =>
      if phase.BothWritten? {
        forall d | st.origin < d <= range.end ensures Done(st, d) {
        }
      } else {
        PhaseStep(st, range, job.maxRatio, phase);
        var st' := StepPhase(st, range, job.maxRatio, phase).0;
        DoneStays(st, st', range.start - 1);
      }
    case CurrentDay(confirmed, phase) =>
      if job.current.Some? && !phase.BothWritten? {
        CurrentPhaseStep(st, job.current.value, job.maxRatio, phase);
        if confirmed.Some? {
          DoneStays(st, StepDaily(st, job).0, confirmed.value);
        }
      }
    case Advance(to) =>
      if to.Some? {
        MoveSilverMark(st, to.value);
      }
  }

  /** A day without rows anywhere is done as it stands: none in, none out. */
  lemma NothingIsExact(st: Store, t: Day)
    requires NothingOn(st, t)
    ensures SilverExact(st, t) && QuarantineExact(st, t)
  {
    EmptyInEmptyOut();
  }

  lemma ApprovalStep(st: Store, job: Job)
    requires job.EmptyApproval? && StoreInv(st) && JobInv(st, job) && TimelyJob(st, job)
    ensures var (st', job') := StepApproval(st, job);
            StoreInv(st') && Grows(st, st') && JobInv(st', job')
  {
    var t := job.target;
    if job.bronzeRead.None? || job.silverRead.None? {
    } else if !job.bronzeWritten {
      var st' := StepApproval(st, job).0;
      SettleKeeps(st, t);
      SafetyStays(st, st');
      if WritesApproval(job) {
        NothingIsExact(st, t);
      }
      DoneStays(st, st', job.silverRead.value);
    } else if job.silverRead.value < t {
      assert DoneThrough(st, t);
      MoveSilverMark(st, t);
    }
  }

  lemma PlannerStep(st: Store, job: Job, plan: Plan)
    requires job.Planner? && StoreInv(st) && JobInv(st, job)
    requires plan in StepJob(st, job).2
    ensures PlanInv(st, plan)
  {
    ChunksContiguous(st.silverMark + 1, plan.to, job.chunkDays);
  }

  lemma JobStep(st: Store, job: Job)
    requires StoreInv(st) && JobInv(st, job) && TimelyJob(st, job)
    ensures var (st', job', plans) := StepJob(st, job);
            && StoreInv(st') && Grows(st, st') && JobInv(st', job')
            && (forall plan | plan in plans :: PlanInv(st', plan))
  {
    match job
    case Planner(_, _, _) =>
      forall plan | plan in StepJob(st, job).2 ensures PlanInv(st, plan) {
        PlannerStep(st, job, plan);
      }
    case Chunk(_, _, _) => ChunkStep(st, job);
    case Finalizer(_, _, _, _) => FinalizerStep(st, job);
    case Daily(_, _, _, _) => DailyStepKeeps(st, job);
    case EmptyApproval(_, _, _, _, _) => ApprovalStep(st, job);
    case Finished =>
  }

  // ---------------------------------------------------------------- every run

  lemma MembersStay(sys: System, st: Store)
    requires Inv(sys) && Grows(sys.store, st)
    ensures forall id | id in sys.jobs :: JobInv(st, sys.jobs[id])
    ensures forall plan | plan in sys.plans :: PlanInv(st, plan)
  {
    forall id | id in sys.jobs ensures JobInv(st, sys.jobs[id]) {
      JobStays(sys.store, st, sys.jobs[id]);
    }
    forall plan | plan in sys.plans ensures PlanInv(st, plan) {
      PlanStays(sys.store, st, plan);
    }
  }

  lemma SpawnStarts(sys: System, job: Job)
    requires Inv(sys) && MayStart(sys, job)
    ensures JobInv(sys.store, job)
  {
    if job.Chunk? {
      var plan :| plan in sys.plans && job.range in plan.ranges;
      var i :| 0 <= i < |plan.ranges| && plan.ranges[i] == job.range;
      Follows(plan.ranges, plan.from + 1, plan.to, i);
    }
  }

  lemma SettleKeeps(st: Store, day: Day)
    requires StoreInv(st)
    ensures var st' := st.(settled := st.settled + {day}); StoreInv(st') && Grows(st, st')
  {
    SafetyStays(st, st.(settled := st.settled + {day}));
  }

  lemma BronzeCommitKeeps(sys: System, days: set<Day>, rows: set<BronzeRow>)
    requires StoreInv(sys.store)
    requires Enabled(sys, CommitBronze(days, rows)) && Consistent(Next(sys, CommitBronze(days, rows)).store.bronze)
    ensures var st' := Next(sys, CommitBronze(days, rows)).store; StoreInv(st') && Grows(sys.store, st')
  {
    var st := sys.store;
    var st' := Next(sys, CommitBronze(days, rows)).store;
    forall d | d in st.settled ensures InRange(st'.bronze, d, d) == InRange(st.bronze, d, d) {
    }
    SafetyStays(st, st');
  }

  lemma NextKeepsInv(sys: System, a: Action)
    requires Inv(sys) && TimelyStep(sys, a)
    ensures Inv(Next(sys, a)) && Grows(sys.store, Next(sys, a).store)
  {
    if Enabled(sys, a) {
      var st' := Next(sys, a).store;
      match a
      case Spawn(_, job) =>
        SpawnStarts(sys, job);
      case Tick(id) =>
        JobStep(sys.store, sys.jobs[id]);
        MembersStay(sys, st');
      case Crash(_) =>
      case CommitBronze(days, rows) =>
        BronzeCommitKeeps(sys, days, rows);
        MembersStay(sys, st');
      case Settle(day) =>
        SettleKeeps(sys.store, day);
        MembersStay(sys, st');
      case MoveBronzeMark(_) =>
        SafetyStays(sys.store, st');
        MembersStay(sys, st');
    }
  }

  lemma GrowsOn(a: Store, b: Store, c: Store)
    requires Grows(a, b) && Grows(b, c)
    ensures Grows(a, c)
  {
    hide SilverExact, QuarantineExact, InRange;
  }

  /** Main result. In every interleaving, with stale plans, separate reads and writes, and crashes
      anywhere, each day from the start through the Silver watermark and each day of a completed chunk
      holds exactly what its Bronze rows give, in both tables; and a finished day stays finished, wherever
      the watermark goes. */
  lemma {:induction false} RunsAreSafe(sys: System, actions: seq<Action>)
    requires Inv(sys) && Timely(sys, actions)
    ensures Inv(Run(sys, actions)) && Safe(Run(sys, actions).store)
    ensures Grows(sys.store, Run(sys, actions).store)
    ensures forall d | Done(sys.store, d) :: Done(Run(sys, actions).store, d)
    decreases |actions|
  {
    if actions != [] {
      NextKeepsInv(sys, actions[0]);
      RunsAreSafe(Next(sys, actions[0]), actions[1..]);
      GrowsOn(sys.store, Next(sys, actions[0]).store, Run(sys, actions).store);
    }
  }

  /** A fresh deployment: both watermarks at the day before the backfill starts, Silver empty. */
  ghost predicate Fresh(sys: System) {
    && sys.jobs == map[] && sys.plans == {}
    && sys.store.silver == {} && sys.store.quarantine == {} && sys.store.markers == map[]
    && sys.store.bronzeMark == sys.store.silverMark == sys.store.origin
    && sys.store.settled == {}
    && Consistent(sys.store.bronze)
  }

  lemma FreshIsSafe(sys: System, actions: seq<Action>)
    requires Fresh(sys) && Timely(sys, actions)
    ensures Safe(Run(sys, actions).store)
  {
    RunsAreSafe(sys, actions);
  }

  // ---------------------------------------------------------------- approving an empty day

  /** An approval of the next day moves the watermark without reading a table, so it is safe exactly
      when both Silver tables already hold what the day's Bronze rows give; with no Bronze row, exactly
      when no table holds a row of the day. The job checks manifests only. */
  lemma ApprovalIsSafeIff(st: Store, t: Day)
    requires StoreInv(st) && st.silverMark == t - 1
    ensures Safe(st.(settled := st.settled + {t}, silverMark := t)) <==> SilverExact(st, t) && QuarantineExact(st, t)
    ensures InRange(st.bronze, t, t) == {} ==> (SilverExact(st, t) && QuarantineExact(st, t) <==> NothingOn(st, t))
  {
    EmptyInEmptyOut();
    hide Clean, Quarantined, OnDay;
    var st' := st.(settled := st.settled + {t}, silverMark := t);
    assert forall d :: SilverExact(st', d) == SilverExact(st, d) && QuarantineExact(st', d) == QuarantineExact(st, d);
    if SilverExact(st, t) && QuarantineExact(st, t) {
      forall d | st'.origin < d <= t ensures Done(st', d) {
        assert d < t ==> Done(st, d);
      }
      forall r | IsRangeComplete(st'.markers, r, CONTRACT_VERSION) ensures DoneRange(st', r) {
        forall d | r.start <= d <= r.end ensures Done(st', d) {
          assert Done(st, d);
        }
      }
    }
    if Safe(st') {
      assert Done(st', t);
    }
  }

  // ---------------------------------------------------------------- the current day (T0)

  /** Somebody relies on `day`: it is at or below the watermark, or in a chunk marked COMPLETE. */
  ghost predicate Relied(st: Store, day: Day) {
    || st.origin < day <= st.silverMark
    || (exists r | IsRangeComplete(st.markers, r, CONTRACT_VERSION) :: r.Covers(day))
  }

  /** When a write changes what the tables hold of one day only, safety afterwards asks exactly whether
      somebody relies on that day and it is still exact. */
  lemma SafeAfterOneDay(st: Store, st': Store, day: Day)
    requires Safe(st) && st' == st.(silver := st'.silver, quarantine := st'.quarantine)
    requires forall d | d != day :: SilverExact(st', d) == SilverExact(st, d) && QuarantineExact(st', d) == QuarantineExact(st, d)
    ensures Safe(st') <==> !Relied(st, day) || (SilverExact(st', day) && QuarantineExact(st', day))
  {
    hide SilverExact, QuarantineExact;
    if !Relied(st, day) || (SilverExact(st', day) && QuarantineExact(st', day)) {
      forall d | st'.origin < d <= st'.silverMark ensures Done(st', d) {
        assert Done(st, d);
      }
      forall r | IsRangeComplete(st'.markers, r, CONTRACT_VERSION) ensures DoneRange(st', r) {
        forall d | r.start <= d <= r.end ensures Done(st', d) {
          assert Done(st, d);
          if d == day {
            assert r.Covers(day);
          }
        }
      }
    }
    if Safe(st') && Relied(st, day) {
      if !(st.origin < day <= st.silverMark) {
        var r :| IsRangeComplete(st.markers, r, CONTRACT_VERSION) && r.Covers(day);
        assert DoneRange(st', r);
      }
      assert Done(st', day);
    }
  }

  /** The day's two tables after the first write, and after both. */
  lemma OneDayWritten(st: Store, day: Day, out: Output, d: Day)
    requires OutputInv(st, Range(day, day), out)
    ensures var q := WriteQuarantine(st, Range(day, day), out);
            && SilverExact(q, d) == SilverExact(st, d)
            && (d != day ==> QuarantineExact(q, d) == QuarantineExact(st, d))
            && (QuarantineExact(q, day) <==> out.quarantine == Quarantined(InRange(st.bronze, day, day)))
    ensures var both := WriteSilver(WriteQuarantine(st, Range(day, day), out), Range(day, day), out);
            && (d != day ==> SilverExact(both, d) == SilverExact(st, d) && QuarantineExact(both, d) == QuarantineExact(st, d))
            && (SilverExact(both, day) <==> out.clean == Clean(InRange(st.bronze, day, day)))
            && (QuarantineExact(both, day) <==> out.quarantine == Quarantined(InRange(st.bronze, day, day)))
  {
    ReplacedDay(st.silver, PartitionOf, out.clean, day, day, d);
    ReplacedDay(st.silver, PartitionOf, out.clean, day, day, day);
    ReplacedDay(st.quarantine, QuarantinePartitionOf, out.quarantine, day, day, d);
    ReplacedDay(st.quarantine, QuarantinePartitionOf, out.quarantine, day, day, day);
    hide Clean, Quarantined, InRange, ReplaceRange;
    assert OnDay(out.clean, PartitionOf, day) == out.clean;
    assert OnDay(out.quarantine, QuarantinePartitionOf, day) == out.quarantine;
  }

  /** A current-day commit, quarantine and then Silver, keeps the protocol safe exactly when nobody
      relies on the day yet, or both results computed earlier are still what its Bronze rows give. */
  lemma CurrentDayCommitIsSafeIff(st: Store, day: Day, out: Output)
    requires StoreInv(st) && OutputInv(st, Range(day, day), out)
    ensures Safe(WriteSilver(WriteQuarantine(st, Range(day, day), out), Range(day, day), out))
       <==> !Relied(st, day) || (out.clean == Clean(InRange(st.bronze, day, day))
                                 && out.quarantine == Quarantined(InRange(st.bronze, day, day)))
  {
    hide SilverExact, QuarantineExact, Clean, Quarantined, InRange;
    var st' := WriteSilver(WriteQuarantine(st, Range(day, day), out), Range(day, day), out);
    forall d | d != day
      ensures SilverExact(st', d) == SilverExact(st, d) && QuarantineExact(st', d) == QuarantineExact(st, d)
    {
      OneDayWritten(st, day, out, d);
    }
    OneDayWritten(st, day, out, day);
    SafeAfterOneDay(st, st', day);
  }

  /** The same for the quarantine commit alone, where a crash between the two leaves the tables. */
  lemma CurrentDayQuarantineIsSafeIff(st: Store, day: Day, out: Output)
    requires StoreInv(st) && OutputInv(st, Range(day, day), out)
    ensures Safe(WriteQuarantine(st, Range(day, day), out))
       <==> !Relied(st, day) || out.quarantine == Quarantined(InRange(st.bronze, day, day))
  {
    hide SilverExact, QuarantineExact, Clean, Quarantined, InRange;
    var st' := WriteQuarantine(st, Range(day, day), out);
    forall d | d != day
      ensures SilverExact(st', d) == SilverExact(st, d) && QuarantineExact(st', d) == QuarantineExact(st, d)
    {
      OneDayWritten(st, day, out, d);
    }
    OneDayWritten(st, day, out, day);
    SafeAfterOneDay(st, st', day);
    if Relied(st, day) {
      ReliedIsDone(st, day);
    }
  }

  lemma ReliedIsDone(st: Store, day: Day)
    requires Safe(st) && Relied(st, day)
    ensures Done(st, day)
  {
    if !(st.origin < day <= st.silverMark) {
      var r :| IsRangeComplete(st.markers, r, CONTRACT_VERSION) && r.Covers(day);
      assert DoneRange(st, r);
    }
  }
}
