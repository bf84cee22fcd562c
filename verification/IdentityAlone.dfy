/** The Bikeman run scheduled alone: the state machine of IdentityRebuild, never interrupted and with the
    renames failing as given, ends where the job as a program ends
    (staging/jobs/silver_bikeman_action.py). */
module IdentityAlone {
  import opened Basics
  import opened IdentityRebuild

  /** Whether the rename of this step raises. */
  predicate Raises(step: Step, r: Renames) {
    match step
    case RenameAway => r.away
    case RenameIn => r.within
    case PutBack => r.back
    case Resume => r.resume
    case Restore => r.restore
    case _ => false
  }

  datatype Solo = Solo(catalog: Catalog, job: Job)

  function StepSolo(src: Source, s: Solo, r: Renames): Solo {
    var (c, job) := StepJob(src, s.catalog, s.job, Raises(s.job.step, r));
    Solo(c, job)
  }

  function Alone(src: Source, s: Solo, r: Renames, n: nat): Solo
    decreases n
  {
    if n == 0 then s else Alone(src, StepSolo(src, s, r), r, n - 1)
  }

  lemma {:induction false} AloneAdd(src: Source, s: Solo, r: Renames, m: nat, n: nat)
    ensures Alone(src, s, r, m + n) == Alone(src, Alone(src, s, r, m), r, n)
    decreases m
  {
    hide StepSolo;
    if m > 0 {
      AloneAdd(src, StepSolo(src, s, r), r, m - 1, n);
    }
  }

  /** One step, then what the rest of the run comes to. */
  lemma FirstStep(src: Source, s: Solo, r: Renames, next: Solo, n: nat, last: Solo)
    requires StepSolo(src, s, r) == next && Alone(src, next, r, n) == last
    ensures Alone(src, s, r, n + 1) == last
  {
    hide StepSolo;
  }

  lemma {:induction false} FirstDayFirst(t: Tab, src: Source, d: Day, last: Day)
    requires d <= last
    ensures ProcessDays(ProcessDay(t, src, d), src, d + 1, last) == ProcessDays(t, src, d, last)
    decreases last - d
  {
    hide ProcessDay;
    if d < last {
      FirstDayFirst(t, src, d, last - 1);
    } else {
      assert ProcessDays(t, src, d, d - 1) == t;
      assert ProcessDays(ProcessDay(t, src, d), src, d + 1, d) == ProcessDay(t, src, d);
    }
  }

  lemma DayByDay(t: Tab, src: Source, d: Day, last: Day)
    ensures last == d - 1 ==> ProcessDays(t, src, d, last) == t
    ensures d <= last ==> ProcessDays(ProcessDay(t, src, d), src, d + 1, last) == ProcessDays(t, src, d, last)
  {
    if d <= last {
      FirstDayFirst(t, src, d, last);
    }
  }

  /** Where filling ends: at the first day that fails, or full. */
  function Filled(src: Source, c: Catalog, job: Job, d: Day): Solo
    requires c.rebuild.Some?
  {
    var bad := FirstFailing(src, d, RebuildEnd(job, c.first));
    var last := if bad.Some? then bad.value - 1 else RebuildEnd(job, c.first);
    Solo(c.(rebuild := Some(ProcessDays(c.rebuild.value, src, d, last))),
         job.(step := if bad.Some? then Failed(QualityFailed) else RenameAway))
  }

  lemma {:induction false} FillAlone(src: Source, c: Catalog, job: Job, d: Day, r: Renames) returns (n: nat)
    requires job.step == Fill(d) && c.rebuild.Some? && d <= RebuildEnd(job, c.first) + 1
    ensures Alone(src, Solo(c, job), r, n) == Filled(src, c, job, d)
    decreases 1 + RebuildEnd(job, c.first) - d
  {
    var end := RebuildEnd(job, c.first);
    var bad := FirstFailing(src, d, end);
    NoneFailing(src, d, end);
    var last := if bad.Some? then bad.value - 1 else end;
    DayByDay(c.rebuild.value, src, d, last);
    var s := Solo(c, job);
    if d > end || !Passes(src, d) {
      n := 1;
      assert Alone(src, s, r, 1) == Alone(src, StepSolo(src, s, r), r, 0);
    } else {
      var next := Solo(c.(rebuild := Some(ProcessDay(c.rebuild.value, src, d))), job.(step := Fill(d + 1)));
      assert StepSolo(src, s, r) == next;
      hide StepSolo, ProcessDay, ProcessDays;
      n := FillAlone(src, next.catalog, next.job, d + 1, r);
      n := n + 1;
    }
  }

  /** Where a job stands after `result`: on with its days, or failed. */
  function Onward(result: (Catalog, Option<Failure>), job: Job): Solo {
    Solo(result.0, job.(step := if result.1.Some? then Failed(result.1.value) else DaysFrom(job, result.0.first)))
  }

  lemma SwapAlone(src: Source, c: Catalog, job: Job, r: Renames) returns (n: nat)
    requires job.step == RenameAway && c.silver.Some? && c.backup.None? && c.rebuild.Some?
    ensures Alone(src, Solo(c, job), r, n)
         == if r.away then Onward((c, Some(RenameFailed)), job)
            else if r.within then
              Onward((if r.back then c.(silver := None, backup := c.silver) else c, Some(RenameFailed)), job)
            else Onward((c.(silver := c.rebuild, backup := c.silver, rebuild := None), None), job)
  {
    var s0 := Solo(c, job);
    var s1 := StepSolo(src, s0, r);
    var s2 := StepSolo(src, s1, r);
    var s3 := StepSolo(src, s2, r);
    assert Alone(src, s0, r, 1) == Alone(src, s1, r, 0);
    assert Alone(src, s0, r, 2) == Alone(src, s1, r, 1) == Alone(src, s2, r, 0);
    assert Alone(src, s0, r, 3) == Alone(src, s1, r, 2) == Alone(src, s2, r, 1) == Alone(src, s3, r, 0);
    n := if r.away then 1 else if r.within then 3 else 2;
  }

  /** Building the second table from nothing and swapping the names. */
  lemma CreateAlone(src: Source, c: Catalog, job: Job, r: Renames) returns (n: nat)
    requires job.step == Create && job.markRead == c.mark && c.silver.Some? && c.backup.None?
    ensures Alone(src, Solo(c, job), r, n) == Onward(Rebuild(src, c, RebuildEnd(job, c.first), r), job)
  {
    var s := Solo(c, job);
    var begun := Solo(c.(rebuild := Some(EMPTY)), job.(step := Fill(c.first)));
    assert StepSolo(src, s, r) == begun;
    var filled := Filled(src, begun.catalog, begun.job, c.first);
    var fill := FillAlone(src, begun.catalog, begun.job, c.first, r);
    hide StepSolo, ProcessDays, FirstFailing;
    FirstStep(src, s, r, begun, fill, filled);
    n := fill + 1;
    if filled.job.step == RenameAway {
      var swap := SwapAlone(src, filled.catalog, filled.job, r);
      AloneAdd(src, s, r, n, swap);
      n := n + swap;
    }
  }

  lemma ReplaceAlone(src: Source, c: Catalog, job: Job, r: Renames) returns (n: nat)
    requires job.step == Ensure && job.markRead == c.mark && c.silver.Some? && !c.silver.value.identity
    ensures Alone(src, Solo(c, job), r, n) == Onward(Rebuild(src, c, RebuildEnd(job, c.first), r), job)
  {
    var s := Solo(c, job);
    if c.backup.Some? {
      n := 1;
      assert Alone(src, s, r, 1) == Alone(src, StepSolo(src, s, r), r, 0);
    } else if c.rebuild.Some? {
      var dropping := Solo(c, job.(step := Drop));
      var dropped := Solo(c.(rebuild := None), job.(step := Create));
      assert StepSolo(src, s, r) == dropping && StepSolo(src, dropping, r) == dropped;
      n := CreateAlone(src, dropped.catalog, dropped.job, r);
      hide StepSolo;
      var last := Onward(Rebuild(src, c, RebuildEnd(job, c.first), r), job);
      FirstStep(src, dropping, r, dropped, n, last);
      FirstStep(src, s, r, dropping, n + 1, last);
      n := n + 2;
    } else {
      var creating := Solo(c, job.(step := Create));
      assert StepSolo(src, s, r) == creating;
      n := CreateAlone(src, c, creating.job, r);
      hide StepSolo;
      FirstStep(src, s, r, creating, n, Onward(Rebuild(src, c, RebuildEnd(job, c.first), r), job));
      n := n + 1;
    }
  }

  /** From the first look at the catalog to the days, or to a failure. */
  lemma EnsureAlone(src: Source, c: Catalog, job: Job, r: Renames) returns (n: nat)
    requires job.step == Ensure && job.markRead == c.mark
    ensures Alone(src, Solo(c, job), r, n) == Onward(Ensured(src, c, r), job)
  {
    hide Rebuild;
    var s := Solo(c, job);
    if c.silver.Some? {
      if c.silver.value.identity {
        n := 1;
        assert Alone(src, s, r, 1) == Alone(src, StepSolo(src, s, r), r, 0);
      } else {
        n := ReplaceAlone(src, c, job, r);
      }
    } else {
      var s1 := StepSolo(src, s, r);
      var s2 := StepSolo(src, s1, r);
      assert Alone(src, s, r, 2) == Alone(src, s1, r, 1) == Alone(src, s2, r, 0);
      n := 2;
      if s2.job.step == Ensure {
        var again := if s2.catalog.silver.value.identity then 1 else 0;
        if again == 1 {
          assert Alone(src, s2, r, 1) == Alone(src, StepSolo(src, s2, r), r, 0);
        } else {
          again := ReplaceAlone(src, s2.catalog, s2.job, r);
        }
        AloneAdd(src, s, r, 2, again);
        n := 2 + again;
      }
    }
  }

  // ---------------------------------------------------------------- the days

  /** Where the days end, once at day d: the table processed through the last good day, and the watermark
      at it when it is new. */
  function Dayed(src: Source, c: Catalog, job: Job, d: Day): Solo
    requires c.silver.Some?
  {
    var bad := FirstFailing(src, d, job.endDate);
    var last := if bad.Some? then bad.value - 1 else job.endDate;
    Solo(c.(silver := Some(ProcessDays(c.silver.value, src, d, last)), mark := if d <= last && job.markRead < last then last else c.mark),
         job.(step := if bad.Some? then Failed(QualityFailed) else Done))
  }

  lemma {:induction false} DaysAlone(src: Source, c: Catalog, job: Job, d: Day, r: Renames) returns (n: nat)
    requires job.step == Days(d) && c.silver.Some? && job.markRead <= c.mark
    requires c.mark > job.markRead ==> c.mark == d - 1
    ensures Alone(src, Solo(c, job), r, n) == Dayed(src, c, job, d)
    decreases 1 + job.endDate - d
  {
    var bad := FirstFailing(src, d, job.endDate);
    NoneFailing(src, d, job.endDate);
    var last := if bad.Some? then bad.value - 1 else job.endDate;
    DayByDay(c.silver.value, src, d, last);
    var s := Solo(c, job);
    if d > job.endDate || !Passes(src, d) {
      n := 1;
      assert Alone(src, s, r, 1) == Alone(src, StepSolo(src, s, r), r, 0);
    } else {
      var processed := c.(silver := Some(ProcessDay(c.silver.value, src, d)));
      var next := if d >= job.markRead + 1 then processed.(mark := d) else processed;
      NextDay(src, c, job, d, r, processed, next);
      var finish := DaysAlone(src, next, job.(step := Days(d + 1)), d + 1, r);
      hide StepSolo, ProcessDay, ProcessDays;
      var steps := if d >= job.markRead + 1 then 2 else 1;
      AloneAdd(src, s, r, steps, finish);
      n := steps + finish;
    }
  }

  /** One good day: the table, and the watermark when the day is new. */
  lemma NextDay(src: Source, c: Catalog, job: Job, d: Day, r: Renames, processed: Catalog, next: Catalog)
    requires job.step == Days(d) && c.silver.Some? && d <= job.endDate && Passes(src, d)
    requires processed == c.(silver := Some(ProcessDay(c.silver.value, src, d)))
    requires next == if d >= job.markRead + 1 then processed.(mark := d) else processed
    ensures Alone(src, Solo(c, job), r, if d >= job.markRead + 1 then 2 else 1) == Solo(next, job.(step := Days(d + 1)))
  {
    hide ProcessDay;
    var s := Solo(c, job);
    var s1 := StepSolo(src, s, r);
    assert Alone(src, s, r, 1) == Alone(src, s1, r, 0);
    assert Alone(src, s, r, 2) == Alone(src, s1, r, 1) == Alone(src, StepSolo(src, s1, r), r, 0);
  }

  /** The program: the catalog first, and if that went well, the days. */
  function ProgramRun(src: Source, c: Catalog, endDate: Day, r: Renames): Solo {
    var ensured := Ensured(src, c, r);
    var ran := RanDays(src, ensured.0, endDate);
    if ensured.1.Some? then Solo(ensured.0, Job(endDate, c.mark, Failed(ensured.1.value)))
    else Solo(ran.0, Job(endDate, c.mark, if ran.1.Some? then Failed(ran.1.value) else Done))
  }

  /** Main result: the run of the state machine that is never interrupted, whatever renames raise, ends in
      the catalog of the program, and succeeds exactly when the program does. */
  lemma RunAlone(src: Source, c: Catalog, endDate: Day, r: Renames) returns (n: nat)
    ensures Alone(src, Solo(c, Job(endDate, c.mark, Ensure)), r, n) == ProgramRun(src, c, endDate, r)
  {
    var s := Solo(c, Job(endDate, c.mark, Ensure));
    n := EnsureAlone(src, c, s.job, r);
    var mid := Onward(Ensured(src, c, r), s.job);
    EnsuredKeeps(src, c, r);
    if mid.job.step.Days? {
      hide Ensured, ProcessDays, StepSolo, FirstFailing;
      var finish := DaysAlone(src, mid.catalog, mid.job, mid.job.step.next, r);
      AloneAdd(src, s, r, n, finish);
      n := n + finish;
    }
  }

  lemma EnsuredKeeps(src: Source, c: Catalog, r: Renames)
    ensures var (c', failure) := Ensured(src, c, r);
            c'.mark == c.mark && c'.first == c.first && (failure.None? ==> c'.silver.Some?)
  {
    hide ProcessDays, FirstFailing;
  }
}
