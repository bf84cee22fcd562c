/** The rental-history jobs as the sequential programs they are, over stored tables, markers and
    watermark cells. Each is proved to do exactly what its protocol job does when it is scheduled
    alone, so the interleavings of RentalProtocol are interleavings of these programs.
    (staging/jobs/transform_silver_rental_history.py,
    ingestion/jobs/compute_silver_rental_history_backfill_ranges.py,
    ingestion/jobs/advance_silver_rental_history_watermark.py) */
module RentalJobs {
  import opened Basics
  import opened IcebergTable
  import opened RentalTransform
  import opened BackfillPlan
  import opened RentalProtocol
  import Watermark

  /** A store together with the local state of one job. */
  datatype Solo = Solo(store: Store, job: Job)

  function StepSolo(s: Solo): Solo {
    Solo(StepJob(s.store, s.job).0, StepJob(s.store, s.job).1)
  }

  /** The outcome of scheduling only this job for n steps. */
  function Alone(s: Solo, n: nat): Solo
    decreases n
  {
    if n == 0 then s else Alone(StepSolo(s), n - 1)
  }

  lemma {:induction false} AloneAdd(s: Solo, m: nat, n: nat)
    ensures Alone(s, m + n) == Alone(Alone(s, m), n)
    decreases m
  {
    if m > 0 {
      AloneAdd(StepSolo(s), m - 1, n);
    }
  }

  /** What a successful _process_range leaves behind. */
  function Processed(st: Store, range: Range, out: Output): Store {
    WriteSilver(WriteQuarantine(st, range, out), range, out)
  }

  lemma ChunkAlone(st: Store, range: Range, maxRatio: real, out: Output)
    requires Transform(InRange(st.bronze, range.start, range.end), maxRatio) == Ok(out)
    ensures Alone(Solo(st, Chunk(range, maxRatio, Reading)), 4)
         == Solo(Processed(st, range, out).(markers := WriteCompletion(st.markers, range, CONTRACT_VERSION)), Finished)
  {
    hide Transform, ReplaceRange;
    var s0 := Solo(st, Chunk(range, maxRatio, Reading));
    var s1 := Solo(st, Chunk(range, maxRatio, Computed(out)));
    var s2 := Solo(WriteQuarantine(st, range, out), Chunk(range, maxRatio, QuarantineWritten(out)));
    var s3 := Solo(Processed(st, range, out), Chunk(range, maxRatio, BothWritten));
    assert StepSolo(s0) == s1;
    assert StepSolo(s1) == s2;
    assert StepSolo(s2) == s3;
    assert Alone(s0, 4) == Alone(s1, 3) == Alone(s2, 2) == Alone(s3, 1) == StepSolo(s3);
  }

  /** Either of a daily run's two calls: three steps, from reading to both tables written. */
  lemma DailyPhaseAlone(s: Solo, range: Range, out: Output)
    requires s.job.Daily? && Transform(InRange(s.store.bronze, range.start, range.end), s.job.maxRatio) == Ok(out)
    requires || s.job.step == Confirmed(range, Reading)
             || (s.job.current == Some(range.start) && range.start == range.end
                 && s.job.step.CurrentDay? && s.job.step.phase == Reading)
    ensures Alone(s, 3) == Solo(Processed(s.store, range, out), s.job.(step := s.job.step.(phase := BothWritten)))
  {
    hide Transform, ReplaceRange;
    var s1 := Solo(s.store, s.job.(step := s.job.step.(phase := Computed(out))));
    var s2 := Solo(WriteQuarantine(s.store, range, out), s.job.(step := s.job.step.(phase := QuarantineWritten(out))));
    var s3 := Solo(Processed(s.store, range, out), s.job.(step := s.job.step.(phase := BothWritten)));
    assert StepSolo(s) == s1;
    assert StepSolo(s1) == s2;
    assert StepSolo(s2) == s3;
    assert Alone(s, 3) == Alone(s1, 2) == Alone(s2, 1) == s3;
  }

  function ProcessedIf(st: Store, range: Option<Range>, maxRatio: real): Result<Store, TransformError> {
    if range.None? then Ok(st)
    else
      var result := Transform(InRange(st.bronze, range.value.start, range.value.end), maxRatio);
      if result.Err? then Err(result.error) else Ok(Processed(st, range.value, result.value))
  }

  lemma DailyBegins(st: Store, maxDays: int, current: Option<Day>, maxRatio: real, confirmed: Option<Range>)
    returns (steps: nat)
    requires confirmed == Confirmable(st, maxDays)
    ensures Alone(Solo(st, Daily(maxDays, current, maxRatio, ReadBronzeMark)), steps)
         == match ProcessedIf(st, confirmed, maxRatio)
            case Err(_) => Solo(st, Finished)
            case Ok(mid) => Solo(mid, Daily(maxDays, current, maxRatio, CurrentDay(EndOf(confirmed), Reading)))
  {
    hide Transform;
    var s0 := Solo(st, Daily(maxDays, current, maxRatio, ReadBronzeMark));
    var s1 := Solo(st, Daily(maxDays, current, maxRatio, ReadSilverMark(st.bronzeMark)));
    assert StepSolo(s0) == s1;
    steps := 2;
    assert Alone(s0, 2) == Alone(s1, 1) == StepSolo(s1);
    if confirmed.Some? {
      var range := confirmed.value;
      var s2 := Solo(st, Daily(maxDays, current, maxRatio, Confirmed(range, Reading)));
      assert StepSolo(s1) == s2;
      if ProcessedIf(st, confirmed, maxRatio).Err? {
        AloneAdd(s0, 2, 1);
        assert Alone(s2, 1) == StepSolo(s2);
        steps := 3;
      } else {
        DailyPhaseAlone(s2, range, Transform(InRange(st.bronze, range.start, range.end), maxRatio).value);
        AloneAdd(s0, 2, 3);
        AloneAdd(s0, 5, 1);
        var s5 := Alone(s2, 3);
        assert Alone(s5, 1) == StepSolo(s5);
        steps := 6;
      }
    }
  }

  function OneDay(day: Option<Day>): Option<Range> {
    if day.Some? then Some(Range(day.value, day.value)) else None
  }

  lemma DailyEnds(st: Store, maxDays: int, current: Option<Day>, maxRatio: real, to: Option<Day>) returns (steps: nat)
    ensures Alone(Solo(st, Daily(maxDays, current, maxRatio, CurrentDay(to, Reading))), steps)
         == match ProcessedIf(st, OneDay(current), maxRatio)
            case Err(_) => Solo(st, Finished)
            case Ok(last) => Solo(Marked(last, to), Finished)
  {
    hide Transform;
    var s0 := Solo(st, Daily(maxDays, current, maxRatio, CurrentDay(to, Reading)));
    var result := ProcessedIf(st, OneDay(current), maxRatio);
    if result.Err? {
      assert Alone(s0, 1) == StepSolo(s0);
      steps := 1;
    } else if current.Some? {
      DailyPhaseAlone(s0, Range(current.value, current.value),
                      Transform(InRange(st.bronze, current.value, current.value), maxRatio).value);
      var s3 := Solo(result.value, Daily(maxDays, current, maxRatio, CurrentDay(to, BothWritten)));
      assert Alone(s0, 3) == s3;
      AloneAdd(s0, 3, 2);
      LastSteps(result.value, maxDays, current, maxRatio, to, BothWritten);
      steps := 5;
    } else {
      LastSteps(st, maxDays, current, maxRatio, to, Reading);
      steps := 2;
    }
  }

  lemma LastSteps(st: Store, maxDays: int, current: Option<Day>, maxRatio: real, to: Option<Day>, phase: Phase)
    requires current.None? || phase.BothWritten?
    ensures Alone(Solo(st, Daily(maxDays, current, maxRatio, CurrentDay(to, phase))), 2)
         == Solo(Marked(st, to), Finished)
  {
    var s := Solo(st, Daily(maxDays, current, maxRatio, CurrentDay(to, phase)));
    var s' := Solo(st, Daily(maxDays, current, maxRatio, Advance(to)));
    assert StepSolo(s) == s';
    assert Alone(s, 2) == Alone(s', 1) == StepSolo(s');
  }

  function Confirmable(st: Store, maxDays: int): Option<Range> {
    var part := Range(st.silverMark + 1, Min(st.bronzeMark, st.silverMark + maxDays));
    if part.start <= part.end then Some(part) else None
  }

  function EndOf(range: Option<Range>): Option<Day> {
    if range.Some? then Some(range.value.end) else None
  }

  function Marked(st: Store, to: Option<Day>): Store {
    if to.Some? then st.(silverMark := to.value) else st
  }

  /** A daily run from start to end: the confirmed range, then the current day, then the watermark. A
      failure of the confirmed range changes nothing; one of the current day keeps the rows already
      written, and the watermark. */
  function DailyResult(st: Store, maxDays: int, current: Result<Option<Day>, DailyError>, maxRatio: real)
    : (Store, Option<DailyError>)
  {
    var confirmed := Confirmable(st, maxDays);
    match ProcessedIf(st, confirmed, maxRatio)
    case Err(e) => (st, Some(Stopped(e)))
    case Ok(mid) =>
      if current.Err? then (mid, Some(current.error))
      else
        match ProcessedIf(mid, OneDay(current.value), maxRatio)
        case Err(e) => (mid, Some(Stopped(e)))
        case Ok(last) => (Marked(last, EndOf(confirmed)), None)
  }

  /** The protocol's daily job, scheduled alone, ends in the same store, whether it succeeds or stops. */
  lemma DailyAlone(st: Store, maxDays: int, current: Option<Day>, maxRatio: real) returns (steps: nat)
    ensures Alone(Solo(st, Daily(maxDays, current, maxRatio, ReadBronzeMark)), steps)
         == Solo(DailyResult(st, maxDays, Ok(current), maxRatio).0, Finished)
  {
    hide Transform;
    var confirmed := Confirmable(st, maxDays);
    var result := ProcessedIf(st, confirmed, maxRatio);
    steps := DailyBegins(st, maxDays, current, maxRatio, confirmed);
    if result.Ok? {
      var end := DailyEnds(result.value, maxDays, current, maxRatio, EndOf(confirmed));
      AloneAdd(Solo(st, Daily(maxDays, current, maxRatio, ReadBronzeMark)), steps, end);
      steps := steps + end;
    }
  }

  // ---------------------------------------------------------------- the current-day promotion

  /** One line of a Bronze promotion document. */
  datatype Snapshot = Snapshot(target: Day, preliminary: bool, observedAt: int)

  /** The Bronze promotion document a daily run is pointed at. */
  datatype BronzeDocument = BronzeDocument(
    rental: bool, runDate: Day, promotionId: string, complete: bool, t0: bool, degraded: bool, snapshots: seq<Snapshot>)

  /** The metadata of the event that started the run. */
  datatype Trigger = Trigger(runDate: Day, promotionId: string, key: string)

  /** The Silver promotion document of a current day. */
  datatype SilverDocument = SilverDocument(
    source: string, degraded: bool, preliminary: bool, observedAt: int, rowCount: nat, confirmedThrough: Day)

  datatype DailyError = Stopped(error: TransformError) | BadPromotion

  function FirstFor(snapshots: seq<Snapshot>, day: Day): Option<Snapshot> {
    if snapshots == [] then None
    else if snapshots[0].target == day then Some(snapshots[0])
    else FirstFor(snapshots[1..], day)
  }

  /** The document's line for the run date; nothing without a trigger or with T0 switched off in the
      document; an error when the document is missing, is another one, or has no such line. */
  function Accepted(documents: map<string, BronzeDocument>, trigger: Option<Trigger>): Result<Option<Snapshot>, DailyError> {
    if trigger.None? then Ok(None)
    else
      var t := trigger.value;
      if t.key !in documents then Err(BadPromotion)
      else
        var document := documents[t.key];
        if !document.rental || document.runDate != t.runDate || document.promotionId != t.promotionId || !document.complete
        then Err(BadPromotion)
        else if !document.t0 then Ok(None)
        else
          var snapshot := FirstFor(document.snapshots, t.runDate);
          if snapshot.None? then Err(BadPromotion) else Ok(snapshot)
  }

  function CurrentOf(documents: map<string, BronzeDocument>, trigger: Option<Trigger>): Result<Option<Day>, DailyError> {
    match Accepted(documents, trigger)
    case Err(e) => Err(e)
    case Ok(snapshot) => Ok(if snapshot.None? then None else Some(snapshot.value.target))
  }

  lemma {:induction false} FirstForFinds(snapshots: seq<Snapshot>, day: Day)
    ensures FirstFor(snapshots, day).None? <==> forall s | s in snapshots :: s.target != day
    ensures FirstFor(snapshots, day).Some? ==>
      FirstFor(snapshots, day).value in snapshots && FirstFor(snapshots, day).value.target == day
  {
    if snapshots != [] {
      FirstForFinds(snapshots[1..], day);
      assert snapshots == [snapshots[0]] + snapshots[1..];
    }
  }

  // ---------------------------------------------------------------- what the document decides

  /** The document the trigger names is there, and is the COMPLETE rental promotion it says. */
  predicate Matches(documents: map<string, BronzeDocument>, t: Trigger) {
    && t.key in documents && documents[t.key].rental && documents[t.key].complete
    && documents[t.key].runDate == t.runDate && documents[t.key].promotionId == t.promotionId
  }

  predicate ListsDay(document: BronzeDocument, day: Day) {
    exists s | s in document.snapshots :: s.target == day
  }

  /** The document's first line for a day. */
  ghost predicate IsFirstLine(document: BronzeDocument, day: Day, line: Snapshot) {
    exists i :: 0 <= i < |document.snapshots| && document.snapshots[i] == line && line.target == day
                && forall j | 0 <= j < i :: document.snapshots[j].target != day
  }

  lemma {:induction false} FirstForIsFirst(snapshots: seq<Snapshot>, day: Day) returns (i: nat)
    requires FirstFor(snapshots, day).Some?
    ensures i < |snapshots| && snapshots[i] == FirstFor(snapshots, day).value
    ensures forall j | 0 <= j < i :: snapshots[j].target != day
    decreases |snapshots|
  {
    if snapshots[0].target == day {
      i := 0;
    } else {
      i := FirstForIsFirst(snapshots[1..], day);
      assert forall j | 1 <= j < i + 1 :: snapshots[j] == snapshots[1..][j - 1];
      i := i + 1;
    }
  }

  /** What the trigger's document decides about the current day: its first line for the run date when
      T0 is on, nothing when T0 is off, and an error when it is missing, another one, or has no line. */
  lemma DocumentDecides(documents: map<string, BronzeDocument>, t: Trigger)
    ensures Matches(documents, t) && documents[t.key].t0 && ListsDay(documents[t.key], t.runDate) ==>
      && Accepted(documents, Some(t)).Ok? && Accepted(documents, Some(t)).value.Some?
      && IsFirstLine(documents[t.key], t.runDate, Accepted(documents, Some(t)).value.value)
      && CurrentOf(documents, Some(t)) == Ok(Some(t.runDate))
    ensures Matches(documents, t) && !documents[t.key].t0 ==>
      Accepted(documents, Some(t)) == Ok(None) && CurrentOf(documents, Some(t)) == Ok(None)
    ensures !Matches(documents, t) || (documents[t.key].t0 && !ListsDay(documents[t.key], t.runDate)) ==>
      Accepted(documents, Some(t)) == Err(BadPromotion) && CurrentOf(documents, Some(t)) == Err(BadPromotion)
  {
    if Matches(documents, t) {
      var snapshots := documents[t.key].snapshots;
      FirstForFinds(snapshots, t.runDate);
      if FirstFor(snapshots, t.runDate).Some? {
        var i := FirstForIsFirst(snapshots, t.runDate);
        assert IsFirstLine(documents[t.key], t.runDate, snapshots[i]);
      }
    }
  }

  /** The Silver documents after a run that ended in `st`: one more when it ended well with a current day. */
  function FiledDocuments(
    documents: map<(Day, string), SilverDocument>, bronzeDocuments: map<string, BronzeDocument>, trigger: Option<Trigger>,
    st: Store, error: Option<DailyError>): map<(Day, string), SilverDocument>
  {
    var line := Accepted(bronzeDocuments, trigger);
    if error.Some? || trigger.None? || line.Err? || line.value.None? then documents
    else
      var t := trigger.value;
      documents[(t.runDate, t.promotionId) :=
        SilverDocument(t.key, bronzeDocuments[t.key].degraded || line.value.value.preliminary, line.value.value.preliminary,
                       line.value.value.observedAt, |OnDay(st.silver, PartitionOf, t.runDate)|, st.silverMark)]
  }

  /** Both tables hold what they held of the day. */
  ghost predicate SameDay(a: Store, b: Store, d: Day) {
    && OnDay(a.silver, PartitionOf, d) == OnDay(b.silver, PartitionOf, d)
    && OnDay(a.quarantine, QuarantinePartitionOf, d) == OnDay(b.quarantine, QuarantinePartitionOf, d)
  }

  lemma OtherDaysStay(st: Store, range: Range, maxRatio: real, d: Day)
    requires !range.Covers(d) && ProcessedIf(st, Some(range), maxRatio).Ok?
    ensures SameDay(st, ProcessedIf(st, Some(range), maxRatio).value, d)
  {
    var rows := InRange(st.bronze, range.start, range.end);
    RangeStaysInside(st.bronze, range.start, range.end);
    TransformGives(rows, maxRatio);
    ReplacedDay(st.silver, PartitionOf, Clean(rows), range.start, range.end, d);
    ReplacedDay(st.quarantine, QuarantinePartitionOf, Quarantined(rows), range.start, range.end, d);
    hide Clean, Quarantined, InRange, Transform, ReplaceRange, OnDay;
  }

  /** Without a current day a run changes nothing outside its confirmed range. */
  lemma OnlyConfirmedDays(st: Store, maxDays: int, maxRatio: real, d: Day)
    requires !(st.silverMark < d <= st.bronzeMark && d <= st.silverMark + maxDays)
    ensures SameDay(st, DailyResult(st, maxDays, Ok(None), maxRatio).0, d)
    ensures SameDay(st, DailyResult(st, maxDays, Err(BadPromotion), maxRatio).0, d)
  {
    hide Transform, ReplaceRange, OnDay;
    var confirmed := Confirmable(st, maxDays);
    if confirmed.Some? && ProcessedIf(st, confirmed, maxRatio).Ok? {
      OtherDaysStay(st, confirmed.value, maxRatio, d);
    }
  }

  lemma TransformGives(rows: set<BronzeRow>, maxRatio: real)
    requires Transform(rows, maxRatio).Ok?
    ensures Transform(rows, maxRatio).value == Output(Clean(rows), Quarantined(rows))
  {
  }

  /** A daily run that ends well with a current day leaves both tables exact on that day, also when the
      confirmed range was written in the same run. */
  lemma CurrentDayIsExact(st: Store, maxDays: int, day: Day, maxRatio: real)
    requires DailyResult(st, maxDays, Ok(Some(day)), maxRatio).1.None?
    ensures var st' := DailyResult(st, maxDays, Ok(Some(day)), maxRatio).0;
            && SilverExact(st', day) && QuarantineExact(st', day)
            && Transform(InRange(st.bronze, day, day), maxRatio).Ok?
            && OnDay(st'.silver, PartitionOf, day) == Transform(InRange(st.bronze, day, day), maxRatio).value.clean
  {
    hide Clean, Quarantined, InRange, Transform, ReplaceRange, OnDay;
    var rows := InRange(st.bronze, day, day);
    var confirmed := Confirmable(st, maxDays);
    var mid := ProcessedIf(st, confirmed, maxRatio).value;
    assert mid.bronze == st.bronze;
    TransformGives(rows, maxRatio);
    RangeStaysInside(st.bronze, day, day);
    var out := Transform(rows, maxRatio).value;
    OneDayWritten(mid, day, out, day);
    assert DailyResult(st, maxDays, Ok(Some(day)), maxRatio).0
        == Marked(Processed(mid, Range(day, day), out), EndOf(confirmed));
  }

  /** A run for a COMPLETE promotion of its run date with T0 on and a snapshot of that date: when it ends
      well, both tables are exact on the run date and its document is filed, with the numbers the tables
      and the watermark then show. */
  lemma CurrentDayRun(
    st: Store, maxDays: int, bronzeDocuments: map<string, BronzeDocument>, documents: map<(Day, string), SilverDocument>,
    t: Trigger, maxRatio: real) returns (line: Snapshot)
    requires Matches(bronzeDocuments, t) && bronzeDocuments[t.key].t0 && ListsDay(bronzeDocuments[t.key], t.runDate)
    ensures IsFirstLine(bronzeDocuments[t.key], t.runDate, line)
    ensures var (st', error) := DailyResult(st, maxDays, CurrentOf(bronzeDocuments, Some(t)), maxRatio);
            error.None? ==>
              && SilverExact(st', t.runDate) && QuarantineExact(st', t.runDate)
              && FiledDocuments(documents, bronzeDocuments, Some(t), st', error)
                 == documents[(t.runDate, t.promotionId) :=
                      SilverDocument(t.key, bronzeDocuments[t.key].degraded || line.preliminary, line.preliminary,
                                     line.observedAt, |OnDay(st'.silver, PartitionOf, t.runDate)|, st'.silverMark)]
  {
    hide SilverExact, QuarantineExact, DailyResult, Accepted, OnDay;
    DocumentDecides(bronzeDocuments, t);
    line := Accepted(bronzeDocuments, Some(t)).value.value;
    if DailyResult(st, maxDays, Ok(Some(t.runDate)), maxRatio).1.None? {
      CurrentDayIsExact(st, maxDays, t.runDate, maxRatio);
    }
  }

  /** Without a trigger, or with T0 off, the run date is left alone unless it is confirmed, and no document
      is filed. */
  lemma RunWithoutT0(
    st: Store, maxDays: int, bronzeDocuments: map<string, BronzeDocument>, documents: map<(Day, string), SilverDocument>,
    trigger: Option<Trigger>, maxRatio: real)
    requires trigger.Some? ==> Matches(bronzeDocuments, trigger.value) && !bronzeDocuments[trigger.value.key].t0
    ensures var (st', error) := DailyResult(st, maxDays, CurrentOf(bronzeDocuments, trigger), maxRatio);
            && FiledDocuments(documents, bronzeDocuments, trigger, st', error) == documents
            && (forall d | !(st.silverMark < d <= st.bronzeMark && d <= st.silverMark + maxDays) :: SameDay(st, st', d))
  {
    hide DailyResult, SameDay, OnDay;
    if trigger.Some? {
      DocumentDecides(bronzeDocuments, trigger.value);
    }
    forall d | !(st.silverMark < d <= st.bronzeMark && d <= st.silverMark + maxDays)
      ensures SameDay(st, DailyResult(st, maxDays, Ok(None), maxRatio).0, d)
    {
      OnlyConfirmedDays(st, maxDays, maxRatio, d);
    }
  }

  /** A document that is missing, another one, incomplete or without a line for its run date stops the
      run before the watermark moves and before any day but the confirmed ones is touched. */
  lemma RefusedRun(
    st: Store, maxDays: int, bronzeDocuments: map<string, BronzeDocument>, documents: map<(Day, string), SilverDocument>,
    t: Trigger, maxRatio: real)
    requires || !Matches(bronzeDocuments, t)
             || (bronzeDocuments[t.key].t0 && !ListsDay(bronzeDocuments[t.key], t.runDate))
    ensures var (st', error) := DailyResult(st, maxDays, CurrentOf(bronzeDocuments, Some(t)), maxRatio);
            && error.Some? && st'.silverMark == st.silverMark
            && FiledDocuments(documents, bronzeDocuments, Some(t), st', error) == documents
            && (forall d | !(st.silverMark < d <= st.bronzeMark && d <= st.silverMark + maxDays) :: SameDay(st, st', d))
  {
    hide Accepted, SameDay, OnDay, Transform, ReplaceRange;
    DocumentDecides(bronzeDocuments, t);
    forall d | !(st.silverMark < d <= st.bronzeMark && d <= st.silverMark + maxDays)
      ensures SameDay(st, DailyResult(st, maxDays, Err(BadPromotion), maxRatio).0, d)
    {
      OnlyConfirmedDays(st, maxDays, maxRatio, d);
    }
  }

  function WalkedTo(ranges: seq<Range>, before: Day, n: nat, next: nat): Day
    requires next <= |ranges|
  {
    if n < next then ranges[next - 1].end else before
  }

  lemma {:induction false} WalkAlone(st: Store, plan: Plan, from: Day, to: Day, before: Day, n: nat, m: nat, next: nat)
    requires Contiguous(plan.ranges, from, to) && next <= m <= |plan.ranges| && n <= m
    requires forall i | 0 <= i < n :: plan.ranges[i].end <= before
    requires n < m ==> before < plan.ranges[n].end
    requires forall i | n <= i < m :: IsRangeComplete(st.markers, plan.ranges[i], CONTRACT_VERSION)
    ensures Alone(Solo(st, Finalizer(plan, Some(before), next, WalkedTo(plan.ranges, before, n, next))), m - next)
         == Solo(st, Finalizer(plan, Some(before), m, WalkedTo(plan.ranges, before, n, m)))
    decreases m - next
  {
    if next < m {
      if n <= next {
        EndsIncrease(plan.ranges, from, to, n, next);
      }
      assert StepSolo(Solo(st, Finalizer(plan, Some(before), next, WalkedTo(plan.ranges, before, n, next))))
          == Solo(st, Finalizer(plan, Some(before), next + 1, WalkedTo(plan.ranges, before, n, next + 1)));
      WalkAlone(st, plan, from, to, before, n, m, next + 1);
    }
  }

  lemma FinalizerAlone(st: Store, plan: Plan, from: Day, to: Day, confirmed: seq<Range>, gap: Option<Range>)
    returns (steps: nat)
    requires Contiguous(plan.ranges, from, to)
    requires LongestCompletePrefix(Uncovered(SortByStart(plan.ranges), st.silverMark), st.markers, CONTRACT_VERSION, confirmed, gap)
    ensures Alone(Solo(st, Finalizer(plan, None, 0, 0)), steps)
         == Solo(st.(silverMark := Advanced(st.silverMark, confirmed)), Finished)
  {
    var before := st.silverMark;
    var n, m := FinalizerPositions(plan.ranges, from, to, st.markers, CONTRACT_VERSION, before, confirmed, gap);
    WalkAlone(st, plan, from, to, before, n, m, 0);
    var s0, s1 := Solo(st, Finalizer(plan, None, 0, 0)), Solo(st, Finalizer(plan, Some(before), 0, before));
    var after := WalkedTo(plan.ranges, before, n, m);
    var s2 := Solo(st, Finalizer(plan, Some(before), m, after));
    var s3 := Solo(st, Finalizer(plan, Some(before), |plan.ranges|, after));
    assert StepSolo(s0) == s1;
    AloneAdd(s0, 1, m);
    assert Alone(s0, 1) == s1;
    steps := 1 + m;
    if m < |plan.ranges| {
      EndsIncrease(plan.ranges, from, to, n, m);
      assert StepSolo(s2) == s3;
      AloneAdd(s0, steps, 1);
      assert Alone(s2, 1) == s3;
      steps := steps + 1;
    }
    AloneAdd(s0, steps, 1);
    assert Alone(s3, 1) == StepSolo(s3);
    steps := steps + 1;
  }

  /** The marker a chunk leaves completes its range under version 1 of the contract. */
  lemma ChunkIsComplete(markers: map<MarkerKey, Marker>, range: Range)
    ensures IsRangeComplete(WriteCompletion(markers, range, CONTRACT_VERSION), range, 1)
  {
  }

  /** The planner alone: it issues the chunks of (Silver watermark, planned end], and nothing for a chunk
      length below one day. */
  lemma PlannerAlone(sys: System, id: nat, chunkDays: int, cap: Option<int>)
    requires id in sys.jobs && sys.jobs[id] == Planner(chunkDays, cap, None)
    ensures var sys' := Next(Next(sys, Tick(id)), Tick(id));
            var end := PlanEnd(sys.store.silverMark, sys.store.bronzeMark, cap);
            && sys' == sys.(plans := sys'.plans, jobs := sys.jobs[id := Finished])
            && (chunkDays < 1 ==> sys'.plans == sys.plans)
            && (chunkDays >= 1 ==>
                  sys'.plans == sys.plans + {Plan(sys.store.silverMark, end, Chunks(sys.store.silverMark + 1, end, chunkDays))})
  {
    hide Chunks;
    var read := Next(sys, Tick(id));
    assert read == sys.(jobs := sys.jobs[id := Planner(chunkDays, cap, Some(sys.store.bronzeMark))]);
    assert read.jobs[id := Finished] == sys.jobs[id := Finished];
  }

  /** The approval alone: accepted next to both watermarks it settles the day and moves them to it;
      otherwise it changes nothing. */
  lemma ApprovalAlone(st: Store, t: Day, cleared: bool) returns (n: nat)
    ensures Alone(Solo(st, EmptyApproval(t, cleared, None, None, false)), n)
         == Solo(if cleared && t - 1 <= st.bronzeMark <= t && t - 1 <= st.silverMark <= t
                 then st.(settled := st.settled + {t}, bronzeMark := t, silverMark := t) else st, Finished)
  {
    var s0 := Solo(st, EmptyApproval(t, cleared, None, None, false));
    var s1 := StepSolo(s0);
    var s2 := StepSolo(s1);
    assert Alone(s0, 2) == Alone(s1, 1) == Alone(s2, 0);
    n := 2;
    if s2.job != Finished {
      var s3 := StepSolo(s2);
      var s4 := StepSolo(s3);
      assert Alone(s2, 2) == Alone(s3, 1) == Alone(s4, 0);
      AloneAdd(s0, 2, 2);
      n := 4;
    }
  }

  /** What may happen around the jobs at any time: one may die, an unused name may start a finalizer or a
      chunk of a plan once issued, days may settle, days that have not settled may be committed, and the
      Bronze watermark may follow the settled days. */
  lemma AnythingMayHappen(sys: System, id: nat, plan: Plan, days: set<Day>, rows: set<BronzeRow>, to: Day)
    ensures id in sys.jobs ==> Next(sys, Crash(id)) == sys.(jobs := sys.jobs - {id})
    ensures id !in sys.jobs && plan in sys.plans ==>
      Next(sys, Spawn(id, Finalizer(plan, None, 0, 0))) == sys.(jobs := sys.jobs[id := Finalizer(plan, None, 0, 0)])
    ensures id !in sys.jobs && plan in sys.plans ==>
      forall r, ratio | r in plan.ranges ::
        Next(sys, Spawn(id, Chunk(r, ratio, Reading))) == sys.(jobs := sys.jobs[id := Chunk(r, ratio, Reading)])
    ensures Next(sys, Settle(to)).store.settled == sys.store.settled + {to}
    ensures sys.store.origin <= to && (forall d | sys.store.origin < d <= to :: d in sys.store.settled) ==>
      Next(sys, MoveBronzeMark(to)).store.bronzeMark == to
    ensures days !! sys.store.settled && (forall r | r in rows :: r.partition in days) ==>
      forall r :: r in Next(sys, CommitBronze(days, rows)).store.bronze
                  <==> if r.partition in days then r in rows else r in sys.store.bronze
  {
  }

  class SilverJobs {
    const silver: Table<SilverRow>
    const quarantine: Table<QuarantineRow>
    const bronzeMark: Watermark.Cell
    const silverMark: Watermark.Cell
    var bronze: set<BronzeRow>
    var markers: map<MarkerKey, Marker>
    var documents: map<(Day, string), SilverDocument>
    const bronzeDocuments: map<string, BronzeDocument>
    ghost var origin: Day
    ghost var settled: set<Day>

    ghost predicate Valid()
      reads this
    {
      silver.part == PartitionOf && quarantine.part == QuarantinePartitionOf && bronzeMark != silverMark
    }

    ghost function View(): Store
      reads this, silver, quarantine, bronzeMark, silverMark
    {
      Store(origin, bronze, silver.rows, quarantine.rows, markers, bronzeMark.Value(), silverMark.Value(), settled)
    }

    constructor (bronzeMark: Watermark.Cell, silverMark: Watermark.Cell, bronze: set<BronzeRow>,
                 bronzeDocuments: map<string, BronzeDocument>, start: Day)
      requires bronzeMark != silverMark
      ensures Valid() && this.bronzeMark == bronzeMark && this.silverMark == silverMark
      ensures documents == map[] && this.bronzeDocuments == bronzeDocuments
      ensures View() == Store(start, bronze, {}, {}, map[], bronzeMark.Value(), silverMark.Value(), {})
    {
      silver := new Table(PartitionOf);
      quarantine := new Table(QuarantinePartitionOf);
      this.bronzeMark, this.silverMark, this.bronze, markers := bronzeMark, silverMark, bronze, map[];
      documents, this.bronzeDocuments := map[], bronzeDocuments;
      origin, settled := start, {};
    }

    /** Computes and checks everything before the first write; then quarantine, then Silver. An empty
        input still empties the declared range. */
    method ProcessRange(range: Range, maxRatio: real) returns (error: Option<TransformError>, rowCount: nat)
      requires Valid() && range.start <= range.end
      modifies silver, quarantine
      ensures var result := Transform(InRange(old(bronze), range.start, range.end), maxRatio);
              && error == (if result.Err? then Some(result.error) else None)
              && View() == (if result.Err? then old(View()) else Processed(old(View()), range, result.value))
              && rowCount == if result.Err? then 0 else |result.value.clean|
    {
      var rows := InRange(bronze, range.start, range.end);
      var result := Transform(rows, maxRatio);
      if result.Err? {
        return Some(result.error), 0;
      }
      var out := result.value;
      RangeStaysInside(bronze, range.start, range.end);
      var e0 := quarantine.Replace(out.quarantine, range.start, range.end);
      var e1 := silver.Replace(out.clean, range.start, range.end);
      return None, |out.clean|;
    }

    /** The backfill path of run: no watermark is read or written, and the marker comes last. */
    method RunChunk(range: Range, maxRatio: real) returns (error: Option<TransformError>)
      requires Valid() && range.start <= range.end
      modifies this`markers, silver, quarantine
      ensures error.None? <==> Transform(InRange(bronze, range.start, range.end), maxRatio).Ok?
      ensures error.None? ==> View() == Alone(Solo(old(View()), Chunk(range, maxRatio, Reading)), 4).store
      ensures error.Some? ==> View() == old(View())
    {
      hide Transform;
      var rowCount;
      error, rowCount := ProcessRange(range, maxRatio);
      if error.None? {
        ChunkAlone(old(View()), range, maxRatio, Transform(InRange(bronze, range.start, range.end), maxRatio).value);
        markers := WriteCompletion(markers, range, CONTRACT_VERSION);
      }
    }

    /** The finalizer: advances over the longest complete prefix, and reports the gap afterwards. */
    method RunFinalizer(plan: Plan) returns (confirmed: seq<Range>, gap: Option<Range>)
      requires Valid()
      modifies silverMark
      ensures LongestCompletePrefix(Uncovered(SortByStart(plan.ranges), old(silverMark.Value())), markers,
                                    CONTRACT_VERSION, confirmed, gap)
      ensures View() == old(View()).(silverMark := Advanced(old(silverMark.Value()), confirmed))
    {
      var before := silverMark.Read();
      confirmed, gap := ConfirmedRanges(markers, plan.ranges, CONTRACT_VERSION, before);
      var after := if confirmed != [] then confirmed[|confirmed| - 1].end else before;
      if after > before {
        silverMark.Write(after);
      }
    }

    method ProcessIf(range: Option<Range>, maxRatio: real) returns (error: Option<DailyError>, rowCount: nat)
      requires Valid() && (range.Some? ==> range.value.start <= range.value.end)
      modifies silver, quarantine
      ensures var result := ProcessedIf(old(View()), range, maxRatio);
              && View() == (if result.Err? then old(View()) else result.value)
              && error == if result.Err? then Some(Stopped(result.error)) else None
      ensures error.None? && range.Some? ==>
        rowCount == |Transform(InRange(bronze, range.value.start, range.value.end), maxRatio).value.clean|
    {
      error, rowCount := None, 0;
      if range.Some? {
        var stopped;
        stopped, rowCount := ProcessRange(range.value, maxRatio);
        if stopped.Some? {
          error := Some(Stopped(stopped.value));
        }
      }
    }

    /** The daily run. Both parts must succeed before the watermark moves, and the current day's Silver
        document comes after the watermark: it counts the rows the table now holds of that day and names
        the watermark it was written beside. */
    method RunDaily(maxDays: int, trigger: Option<Trigger>, maxRatio: real) returns (error: Option<DailyError>)
      requires Valid()
      modifies this`documents, silver, quarantine, silverMark
      ensures (View(), error) == DailyResult(old(View()), maxDays, CurrentOf(bronzeDocuments, trigger), maxRatio)
      ensures documents == FiledDocuments(old(documents), bronzeDocuments, trigger, View(), error)
    {
      hide Transform, ReplaceRange, Clean, Quarantined;
      var bronzeSeen := bronzeMark.Read();
      var silverSeen := silverMark.Read();
      var range := Range(silverSeen + 1, Min(bronzeSeen, silverSeen + maxDays));
      var confirmed := if range.start <= range.end then Some(range) else None;
      var rowCount;
      error, rowCount := ProcessIf(confirmed, maxRatio);
      if error.Some? {
        return;
      }
      var snapshot := Accepted(bronzeDocuments, trigger);
      if snapshot.Err? {
        error := Some(snapshot.error);
        return;
      }
      if snapshot.value.Some? {
        FirstForFinds(bronzeDocuments[trigger.value.key].snapshots, trigger.value.runDate);
      }
      error, rowCount := ProcessIf(if snapshot.value.Some? then OneDay(Some(trigger.value.runDate)) else None, maxRatio);
      if error.Some? {
        return;
      }
      if confirmed.Some? {
        silverMark.Write(range.end);
      }
      if snapshot.value.Some? {
        var t := trigger.value;
        CurrentDayIsExact(old(View()), maxDays, t.runDate, maxRatio);
        documents := documents[(t.runDate, t.promotionId) :=
          SilverDocument(t.key, bronzeDocuments[t.key].degraded || snapshot.value.value.preliminary,
                         snapshot.value.value.preliminary, snapshot.value.value.observedAt, rowCount,
                         if confirmed.Some? then range.end else silverSeen)];
      }
    }
  }
}
