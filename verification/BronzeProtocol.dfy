/** Who may move the Bronze rental-history watermark, and why it is never wrong.

    The daily promotion and its watermark update, the catch-up batch with its completion markers and
    marker walk, and the manual approval of empty days run in any order; every stored document,
    watermark access and table commit is one step, and a job may die after any of them.
    (ingestion/jobs/promote_rental_history_raw.py, promote_rental_history_catchup_batch.py,
    write_rental_history_completion_marker.py, advance_completion_watermark.py,
    update_rental_history_confirmed_watermark.py, confirm_rental_history_empty.py) */
module BronzeProtocol {
  import opened Basics

  /** A collection cutoff: a day and a second within it. */
  datatype Cutoff = Cutoff(day: Day, second: int)

  /** The catch-up jobs file every date under 23:59:59 of that date. */
  const CATCHUP_SECOND := 86399

  /** A selected snapshot. Catch-up documents carry no requested_hours, read as the empty list. */
  datatype Entry = Entry(day: Day, hours: seq<int>)

  /** A COMPLETE promotion document. */
  datatype Promotion = Promotion(promoted: set<Day>, entries: seq<Entry>)

  datatype Status = Complete | CompleteEmpty | Failed | ManuallyConfirmedEmpty

  /** What a Bronze partition was last replaced with. */
  datatype Coverage = FullDay | PartDay

  /** The stored cells. `approved` (days an accepted approval wrote its marker for) is
      bookkeeping. */
  datatype Store = Store(
    origin: Day, bronze: map<Day, Coverage>, promotions: map<Cutoff, Promotion>,
    completions: map<Day, Status>, mark: Day, approved: set<Day>)

  datatype Job =
    | Promote(cutoff: Cutoff, entries: seq<Entry>, committed: bool)
    | CatchUp(days: seq<Day>, committed: bool, next: nat)
    | Completion(day: Day, cutoff: Cutoff, manifestEmpty: bool, decided: Option<Status>)
    | Advance(target: Day, before: Option<Day>, cursor: Day)
    | Update(cutoff: Cutoff, document: Option<Promotion>, before: Option<Day>)
    | Approval(target: Day, evident: bool, markerSeen: Option<bool>, bronzeRead: Option<Day>, marked: bool)
    | Finished

  datatype System = System(store: Store, jobs: map<nat, Job>)

  datatype Action = Spawn(id: nat, job: Job) | Tick(id: nat) | Crash(id: nat)

  // ---------------------------------------------------------------- what the jobs compute

  predicate IsFull(e: Entry) {
    e.hours == HoursBelow(24)
  }

  function CoverageOf(e: Entry): Coverage {
    if IsFull(e) then FullDay else PartDay
  }

  function DaysOf(entries: seq<Entry>): set<Day> {
    set e | e in entries :: e.day
  }

  /** One Iceberg commit replacing the partition of every selected entry. */
  function Commit(bronze: map<Day, Coverage>, entries: seq<Entry>): map<Day, Coverage>
    decreases |entries|
  {
    if entries == [] then bronze
    else Commit(bronze[entries[0].day := CoverageOf(entries[0])], entries[1..])
  }

  function CommitFull(bronze: map<Day, Coverage>, days: seq<Day>): map<Day, Coverage> {
    map d | d in bronze.Keys + Elements(days) :: if d in days then FullDay else bronze[d]
  }

  /** full_day_partitions */
  function FullDayPartitions(doc: Promotion, runDate: Day): set<Day> {
    set e | e in doc.entries && e.day in doc.promoted && IsFull(e) && e.day < runDate :: e.day
  }

  predicate Accepted(completions: map<Day, Status>, d: Day) {
    d in completions && (completions[d] == Complete || completions[d] == ManuallyConfirmedEmpty)
  }

  /** next_confirmed_watermark: the end of the run of candidates right after `mark`. */
  function NextConfirmed(mark: Day, candidates: set<Day>, runDate: Day): Day
    decreases runDate - mark
  {
    if mark + 1 < runDate && mark + 1 in candidates then NextConfirmed(mark + 1, candidates, runDate) else mark
  }

  // ---------------------------------------------------------------- job steps

  function StepJob(st: Store, job: Job): (Store, Job) {
    match job
    case Promote(cutoff, entries, committed) =>
      if !committed then (st.(bronze := Commit(st.bronze, entries)), Promote(cutoff, entries, true))
      else (st.(promotions := st.promotions[cutoff := Promotion(DaysOf(entries), entries)]), Finished)
    case CatchUp(days, committed, next) =>
      if !committed then (st.(bronze := CommitFull(st.bronze, days)), CatchUp(days, true, next))
      else if next < |days| then
        var d := days[next];
        (st.(promotions := st.promotions[Cutoff(d, CATCHUP_SECOND) := Promotion({d}, [Entry(d, [])])]), job.(next := next + 1))
      else (st, Finished)
    case Completion(day, cutoff, manifestEmpty, decided) =>
      if cutoff.day != day then (st, Finished)
      else if decided.None? then
        (st, job.(decided := Some(if cutoff in st.promotions then Complete else if manifestEmpty then CompleteEmpty else Failed)))
      else (st.(completions := st.completions[day := decided.value]), Finished)
    case Advance(target, before, cursor) =>
      if before.None? then (st, job.(before := Some(st.mark), cursor := st.mark + 1))
      else if cursor <= target && Accepted(st.completions, cursor) then (st, job.(cursor := cursor + 1))
      else (if cursor - 1 > before.value then st.(mark := cursor - 1) else st, Finished)
    case Update(cutoff, document, before) =>
      if document.None? then
        (st, if cutoff in st.promotions then job.(document := Some(st.promotions[cutoff])) else Finished)
      else if before.None? then (st, job.(before := Some(st.mark)))
      else
        var after := NextConfirmed(before.value, FullDayPartitions(document.value, cutoff.day), cutoff.day);
        (if after > before.value then st.(mark := after) else st, Finished)
    case Approval(t, evident, markerSeen, bronzeRead, marked) =>
      if markerSeen.None? then
        (st, if !evident then Finished else if t !in st.completions then job.(markerSeen := Some(false))
             else if st.completions[t] == ManuallyConfirmedEmpty then job.(markerSeen := Some(true)) else Finished)
      else if bronzeRead.None? then (st, if st.mark in {t - 1, t} then job.(bronzeRead := Some(st.mark)) else Finished)
      else if !marked then
        (if markerSeen.value then st
         else st.(completions := st.completions[t := ManuallyConfirmedEmpty], approved := st.approved + {t}),
         job.(marked := true))
      else (if bronzeRead.value < t then st.(mark := t) else st, Finished)
    case Finished => (st, job)
  }

  predicate Distinct(entries: seq<Entry>) {
    forall i, j | 0 <= i < j < |entries| :: entries[i].day != entries[j].day
  }

  /** How a job may begin. A daily cutoff never falls on the instant reserved for catch-up, and completion
      jobs use that instant. The manifests may speak for an approval or against it (`evident`). */
  predicate MayStart(job: Job) {
    match job
    case Promote(cutoff, entries, committed) => Distinct(entries) && !committed && cutoff.second != CATCHUP_SECOND
    case CatchUp(_, committed, next) => !committed && next == 0
    case Completion(_, cutoff, _, decided) => decided.None? && cutoff.second == CATCHUP_SECOND
    case Advance(_, before, _) => before.None?
    case Update(_, document, before) => document.None? && before.None?
    case Approval(_, _, markerSeen, bronzeRead, marked) => markerSeen.None? && bronzeRead.None? && !marked
    case Finished => true
  }

  function Next(sys: System, a: Action): System {
    match a
    case Spawn(id, job) =>
      if id in sys.jobs || !MayStart(job) then sys
      else sys.(jobs := sys.jobs[id := job])
    case Tick(id) =>
      if id !in sys.jobs then sys
      else
        var (st, job) := StepJob(sys.store, sys.jobs[id]);
        System(st, sys.jobs[id := job])
    case Crash(id) => sys.(jobs := sys.jobs - {id})
  }

  function Run(sys: System, actions: seq<Action>): System
    decreases |actions|
  {
    if actions == [] then sys else Run(Next(sys, actions[0]), actions[1..])
  }

  // ---------------------------------------------------------------- what is promised

  predicate HoldsFullDay(st: Store, d: Day) {
    d in st.bronze && st.bronze[d] == FullDay
  }

  predicate Covered(st: Store, d: Day) {
    HoldsFullDay(st, d) || d in st.approved
  }

  ghost predicate CoveredThrough(st: Store, mark: Day) {
    forall d | st.origin < d <= mark :: Covered(st, d)
  }

  ghost predicate Safe(st: Store) {
    CoveredThrough(st, st.mark)
  }

  /** The schedule never replaces a complete partition by a partial one: cutoffs do not go backwards. */
  ghost predicate TimelyStep(sys: System, a: Action) {
    (a.Tick? && a.id in sys.jobs) ==> TimelyJob(sys.store, sys.jobs[a.id])
  }

  ghost predicate TimelyJob(st: Store, job: Job) {
    (job.Promote? && !job.committed) ==> (forall e | e in job.entries && !IsFull(e) :: !HoldsFullDay(st, e.day))
  }

  ghost predicate Timely(sys: System, actions: seq<Action>)
    decreases |actions|
  {
    actions != [] ==> TimelyStep(sys, actions[0]) && Timely(Next(sys, actions[0]), actions[1..])
  }

  // ---------------------------------------------------------------- the invariant

  /** What a stored promotion document vouches for. */
  ghost predicate PromotionTrue(st: Store, cutoff: Cutoff, doc: Promotion) {
    && (forall e | e in doc.entries && IsFull(e) :: HoldsFullDay(st, e.day))
    && (cutoff.second == CATCHUP_SECOND ==> HoldsFullDay(st, cutoff.day))
  }

  ghost predicate StatusTrue(st: Store, d: Day, status: Status) {
    match status
    case Complete => HoldsFullDay(st, d)
    case ManuallyConfirmedEmpty => d in st.approved
    case _ => true
  }

  ghost predicate StoreInv(st: Store) {
    && st.origin <= st.mark && Safe(st)
    && (forall c | c in st.promotions :: PromotionTrue(st, c, st.promotions[c]))
    && (forall d | d in st.completions :: StatusTrue(st, d, st.completions[d]))
  }

  ghost predicate JobInv(st: Store, job: Job) {
    match job
    case Promote(cutoff, entries, committed) =>
      && Distinct(entries) && cutoff.second != CATCHUP_SECOND
      && (committed ==> (forall e | e in entries && IsFull(e) :: HoldsFullDay(st, e.day)))
    case CatchUp(days, committed, _) => committed ==> (forall d | d in days :: HoldsFullDay(st, d))
    case Completion(day, cutoff, _, decided) =>
      && cutoff.second == CATCHUP_SECOND
      && (decided.Some? ==> decided.value != ManuallyConfirmedEmpty && StatusTrue(st, cutoff.day, decided.value))
    case Advance(_, before, cursor) =>
      before.Some? ==> st.origin <= before.value < cursor && CoveredThrough(st, cursor - 1)
    case Update(cutoff, document, before) =>
      && (document.Some? ==> PromotionTrue(st, cutoff, document.value))
      && (before.Some? ==> st.origin <= before.value && CoveredThrough(st, before.value))
    case Approval(t, evident, markerSeen, bronzeRead, marked) =>
      && (marked || markerSeen == Some(true) ==> t in st.approved)
      && (marked ==> bronzeRead.Some?) && (bronzeRead.Some? ==> markerSeen.Some?) && (markerSeen.Some? ==> evident)
      && (bronzeRead.Some? ==> st.origin <= bronzeRead.value && bronzeRead.value in {t - 1, t} && CoveredThrough(st, bronzeRead.value))
    case Finished => true
  }

  ghost predicate Inv(sys: System) {
    && StoreInv(sys.store)
    && (forall id | id in sys.jobs :: JobInv(sys.store, sys.jobs[id]))
  }

  /** Evidence is never lost: complete partitions stay complete and approvals stay. */
  ghost predicate Grows(a: Store, b: Store) {
    && a.origin == b.origin
    && a.approved <= b.approved
    && (forall d | HoldsFullDay(a, d) :: HoldsFullDay(b, d))
  }

  lemma CoveredStays(a: Store, b: Store, mark: Day)
    requires Grows(a, b) && CoveredThrough(a, mark)
    ensures CoveredThrough(b, mark)
  {
    forall d | b.origin < d <= mark ensures Covered(b, d) {
      assert Covered(a, d);
    }
  }

  lemma JobStays(a: Store, b: Store, job: Job)
    requires Grows(a, b) && JobInv(a, job)
    ensures JobInv(b, job)
  {
    match job
    case Advance(_, before, cursor) =>
      if before.Some? {
        CoveredStays(a, b, cursor - 1);
      }
    case Update(_, _, before) =>
      if before.Some? {
        CoveredStays(a, b, before.value);
      }
    case Approval(_, _, _, bronzeRead, _) =>
      if bronzeRead.Some? {
        CoveredStays(a, b, bronzeRead.value);
      }
    case _ =>
  }

  /** Documents and marks keep their meaning when only the table or the approvals grow. */
  lemma StoreStays(a: Store, b: Store)
    requires StoreInv(a) && Grows(a, b)
    requires b.mark == a.mark && b.promotions == a.promotions && b.completions == a.completions
    ensures StoreInv(b)
  {
    CoveredStays(a, b, a.mark);
  }

  lemma {:induction false} CommitAt(bronze: map<Day, Coverage>, entries: seq<Entry>, d: Day)
    requires Distinct(entries)
    ensures d !in DaysOf(entries) ==> (d in Commit(bronze, entries) <==> d in bronze)
    ensures d !in DaysOf(entries) && d in bronze ==> Commit(bronze, entries)[d] == bronze[d]
    ensures forall e | e in entries && e.day == d :: d in Commit(bronze, entries) && Commit(bronze, entries)[d] == CoverageOf(e)
    decreases |entries|
  {
    if entries != [] {
      var rest := entries[1..];
      CommitAt(bronze[entries[0].day := CoverageOf(entries[0])], rest, d);
      assert DaysOf(entries) == {entries[0].day} + DaysOf(rest);
      forall e | e in entries && e.day == d ensures e == entries[0] || e in rest {
      }
      assert d == entries[0].day ==> d !in DaysOf(rest);
    }
  }

  lemma PromotionCommits(st: Store, entries: seq<Entry>)
    requires Distinct(entries) && forall e | e in entries && !IsFull(e) :: !HoldsFullDay(st, e.day)
    ensures var st' := st.(bronze := Commit(st.bronze, entries));
            Grows(st, st') && (forall e | e in entries && IsFull(e) :: HoldsFullDay(st', e.day))
  {
    var st' := st.(bronze := Commit(st.bronze, entries));
    forall d | HoldsFullDay(st, d) ensures HoldsFullDay(st', d) {
      CommitAt(st.bronze, entries, d);
      if d in DaysOf(entries) {
        var e :| e in entries && e.day == d;
      }
    }
    forall e | e in entries && IsFull(e) ensures HoldsFullDay(st', e.day) {
      CommitAt(st.bronze, entries, e.day);
    }
  }

  /** The daily walk moves only over candidates, and stops before the run date. */
  lemma {:induction false} NextConfirmedIsContiguous(mark: Day, candidates: set<Day>, runDate: Day)
    ensures var after := NextConfirmed(mark, candidates, runDate);
            && mark <= after && (after > mark ==> after < runDate)
            && (forall d | mark < d <= after :: d in candidates)
            && (after + 1 < runDate ==> after + 1 !in candidates)
    decreases runDate - mark
  {
    if mark + 1 < runDate && mark + 1 in candidates {
      NextConfirmedIsContiguous(mark + 1, candidates, runDate);
    }
  }

  lemma MoveMark(st: Store, to: Day)
    requires StoreInv(st) && st.origin <= to && CoveredThrough(st, to)
    ensures StoreInv(st.(mark := to)) && Grows(st, st.(mark := to))
  {
    CoveredStays(st, st.(mark := to), to);
    var st' := st.(mark := to);
    assert forall c | c in st'.promotions :: PromotionTrue(st, c, st'.promotions[c]);
    assert forall d | d in st'.completions :: StatusTrue(st, d, st'.completions[d]);
  }

  lemma UpdateStep(st: Store, job: Job)
    requires job.Update? && StoreInv(st) && JobInv(st, job)
    ensures var (st', job') := StepJob(st, job);
            StoreInv(st') && Grows(st, st') && JobInv(st', job')
  {
    if job.document.Some? && job.before.Some? {
      var candidates := FullDayPartitions(job.document.value, job.cutoff.day);
      NextConfirmedIsContiguous(job.before.value, candidates, job.cutoff.day);
      var after := NextConfirmed(job.before.value, candidates, job.cutoff.day);
      if after > job.before.value {
        forall d | st.origin < d <= after ensures Covered(st, d) {
          if job.before.value < d {
            assert d in candidates;
            var e :| e in job.document.value.entries && IsFull(e) && e.day == d;
          }
        }
        MoveMark(st, after);
      }
    }
  }

  lemma AdvanceStep(st: Store, job: Job)
    requires job.Advance? && StoreInv(st) && JobInv(st, job)
    ensures var (st', job') := StepJob(st, job);
            StoreInv(st') && Grows(st, st') && JobInv(st', job')
  {
    if job.before.Some? {
      if job.cursor <= job.target && Accepted(st.completions, job.cursor) {
        assert StatusTrue(st, job.cursor, st.completions[job.cursor]);
        assert Covered(st, job.cursor);
      } else if job.cursor - 1 > job.before.value {
        MoveMark(st, job.cursor - 1);
      }
    }
  }

  lemma ApprovalStep(st: Store, job: Job)
    requires job.Approval? && StoreInv(st) && JobInv(st, job)
    ensures var (st', job') := StepJob(st, job);
            StoreInv(st') && Grows(st, st') && JobInv(st', job')
  {
    var (st', job') := StepJob(st, job);
    if job.bronzeRead.Some? {
      if !job.marked {
        CoveredStays(st, st', st.mark);
        CoveredStays(st, st', job.bronzeRead.value);
      } else if job.bronzeRead.value < job.target {
        assert CoveredThrough(st, job.target);
        MoveMark(st, job.target);
      }
    }
  }

  lemma WriterStep(st: Store, job: Job)
    requires job.Promote? || job.CatchUp? || job.Completion?
    requires StoreInv(st) && JobInv(st, job) && TimelyJob(st, job)
    ensures var (st', job') := StepJob(st, job);
            StoreInv(st') && Grows(st, st') && JobInv(st', job')
  {
    var (st', job') := StepJob(st, job);
    if job.Promote? && !job.committed {
      PromotionCommits(st, job.entries);
      StoreStays(st, st');
    } else if job.CatchUp? && !job.committed {
      StoreStays(st, st');
    } else {
      CoveredStays(st, st', st.mark);
    }
  }

  lemma NextKeepsInv(sys: System, a: Action)
    requires Inv(sys) && TimelyStep(sys, a)
    ensures Inv(Next(sys, a))
  {
    var sys' := Next(sys, a);
    if a.Tick? && a.id in sys.jobs {
      var job := sys.jobs[a.id];
      match job {
        case Update(_, _, _) => UpdateStep(sys.store, job);
        case Advance(_, _, _) => AdvanceStep(sys.store, job);
        case Approval(_, _, _, _, _) => ApprovalStep(sys.store, job);
        case Finished =>
        case _ => WriterStep(sys.store, job);
      }
    } else if a.Spawn? {
      StoreStays(sys.store, sys'.store);
    }
    assert Grows(sys.store, sys'.store);
    forall id | id in sys.jobs ensures JobInv(sys'.store, sys.jobs[id]) {
      JobStays(sys.store, sys'.store, sys.jobs[id]);
    }
  }

  /** Main result: whatever the three watermark writers and the producers of their evidence do, in any
      order and with crashes, every day from the start through the Bronze watermark holds a complete
      day or was approved as empty. Stale writes may lower the watermark, never raise it wrongly. */
  lemma {:induction false} WatermarkIsNeverAhead(sys: System, actions: seq<Action>)
    requires Inv(sys) && Timely(sys, actions)
    ensures Inv(Run(sys, actions)) && Safe(Run(sys, actions).store)
    decreases |actions|
  {
    if actions != [] {
      NextKeepsInv(sys, actions[0]);
      WatermarkIsNeverAhead(Next(sys, actions[0]), actions[1..]);
    }
  }

  /** A fresh deployment: the watermark at the day before the backfill starts, nothing stored. */
  predicate Fresh(sys: System) {
    && sys.jobs == map[] && sys.store.promotions == map[] && sys.store.completions == map[]
    && sys.store.mark == sys.store.origin && sys.store.approved == {}
  }

  lemma FreshRunsAreSafe(sys: System, actions: seq<Action>)
    requires Fresh(sys) && Timely(sys, actions)
    ensures Safe(Run(sys, actions).store)
  {
    WatermarkIsNeverAhead(sys, actions);
  }

  /** A partial commit is harmless exactly when the days it covers are above the watermark (or below
      the start), or approved. */
  lemma PartialCommitIsSafeIff(st: Store, e: Entry)
    requires StoreInv(st) && !IsFull(e)
    ensures Safe(st.(bronze := Commit(st.bronze, [e])))
       <==> !(st.origin < e.day <= st.mark) || e.day in st.approved
  {
    var st' := st.(bronze := Commit(st.bronze, [e]));
    assert [e][1..] == [];
    CommitAt(st.bronze, [e], e.day);
    assert e in [e];
    forall d | d != e.day ensures Covered(st', d) == Covered(st, d) {
      CommitAt(st.bronze, [e], d);
    }
    assert !HoldsFullDay(st', e.day);
    if st.origin < e.day <= st.mark && e.day !in st.approved {
      assert !Covered(st', e.day);
    }
  }

  lemma RunCons(sys: System, a: Action, rest: seq<Action>)
    ensures Run(sys, [a] + rest) == Run(Next(sys, a), rest)
  {
    assert ([a] + rest)[1..] == rest;
  }

  /** Why 23:59:59 is reserved: a daily promotion filed under that instant lets the completion job and
      the marker walk put the watermark on a day that only holds part of its hours. */
  lemma ReservedInstantMatters(e: Entry) returns (sys: System, actions: seq<Action>)
    requires !IsFull(e) && e.day == 1
    ensures Safe(sys.store) && sys.store.mark == sys.store.origin == 0
    ensures sys.jobs == map[0 := Promote(Cutoff(1, CATCHUP_SECOND), [e], false),
                            1 := Completion(1, Cutoff(1, CATCHUP_SECOND), false, None), 2 := Advance(1, None, 0)]
    ensures Run(sys, actions).store.mark == 1 && !Safe(Run(sys, actions).store)
  {
    var c := Cutoff(1, CATCHUP_SECOND);
    var st := Store(0, map[], map[], map[], 0, {});
    var completion, walk := Completion(1, c, false, None), Advance(1, None, 0);
    sys := System(st, map[0 := Promote(c, [e], false), 1 := completion, 2 := walk]);
    var promoted := PromotedUnderTheInstant(sys, e);
    var marked := CompletedUnderTheInstant(promoted);
    var walked := WalkedUnderTheInstant(marked);
    actions := [Tick(0)] + ([Tick(0)] + ([Tick(1)] + ([Tick(1)] + ([Tick(2)] + ([Tick(2)] + ([Tick(2)] + []))))));
    RunCons(marked, Tick(2), [Tick(2)] + ([Tick(2)] + []));
    RunCons(Next(marked, Tick(2)), Tick(2), [Tick(2)] + []);
    RunCons(Next(Next(marked, Tick(2)), Tick(2)), Tick(2), []);
    var rest := [Tick(2)] + ([Tick(2)] + ([Tick(2)] + []));
    RunCons(promoted, Tick(1), [Tick(1)] + rest);
    RunCons(Next(promoted, Tick(1)), Tick(1), rest);
    RunCons(sys, Tick(0), [Tick(0)] + ([Tick(1)] + ([Tick(1)] + rest)));
    RunCons(Next(sys, Tick(0)), Tick(0), [Tick(1)] + ([Tick(1)] + rest));
    assert !Covered(walked.store, 1);
  }

  lemma PromotedUnderTheInstant(sys: System, e: Entry) returns (last: System)
    requires 0 in sys.jobs && sys.jobs[0] == Promote(Cutoff(1, CATCHUP_SECOND), [e], false)
    requires !IsFull(e) && e.day == 1
    ensures last == Next(Next(sys, Tick(0)), Tick(0))
    ensures Cutoff(1, CATCHUP_SECOND) in last.store.promotions && !HoldsFullDay(last.store, 1)
    ensures last.store == sys.store.(bronze := last.store.bronze, promotions := last.store.promotions)
    ensures forall id | id in sys.jobs && id != 0 :: id in last.jobs && last.jobs[id] == sys.jobs[id]
  {
    last := Next(Next(sys, Tick(0)), Tick(0));
    CommitAt(sys.store.bronze, [e], 1);
    assert e in [e];
  }

  lemma CompletedUnderTheInstant(sys: System) returns (last: System)
    requires 1 in sys.jobs && sys.jobs[1] == Completion(1, Cutoff(1, CATCHUP_SECOND), false, None)
    requires Cutoff(1, CATCHUP_SECOND) in sys.store.promotions
    ensures last == Next(Next(sys, Tick(1)), Tick(1))
    ensures last.store == sys.store.(completions := sys.store.completions[1 := Complete])
    ensures forall id | id in sys.jobs && id != 1 :: id in last.jobs && last.jobs[id] == sys.jobs[id]
  {
    last := Next(Next(sys, Tick(1)), Tick(1));
  }

  lemma WalkedUnderTheInstant(sys: System) returns (last: System)
    requires 2 in sys.jobs && sys.jobs[2] == Advance(1, None, 0)
    requires sys.store.mark == 0 && Accepted(sys.store.completions, 1)
    ensures last == Next(Next(Next(sys, Tick(2)), Tick(2)), Tick(2))
    ensures last.store == sys.store.(mark := 1)
  {
    last := Next(Next(Next(sys, Tick(2)), Tick(2)), Tick(2));
  }
}
