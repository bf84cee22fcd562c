/** A run of the rental-history protocol that breaks its safety property: a current-day (T0) result is
    computed while Bronze has no row of that day, its job stalls, Bronze receives the day and settles
    it, a second daily run finishes the day, and then the first job commits. Nothing in the job
    prevents this; RunsAreSafe excludes it by assumption. The DAG starts one run at a time
    (airflow/dags/silver_rental_history_dag.py:45), so two that overlap are a process that outlived its
    run, or one started outside the DAG.
    (staging/jobs/transform_silver_rental_history.py) */
module StaleCommit {
  import opened Basics
  import opened IcebergTable
  import opened RentalTransform
  import opened BackfillPlan
  import opened RentalProtocol
  import opened RentalJobs

  /** A fresh deployment before anything was loaded. */
  function Empty(): System {
    System(Store(0, {}, {}, {}, map[], 0, 0, {}), map[], {})
  }

  function Ticks(id: nat, n: nat): seq<Action> {
    if n == 0 then [] else [Tick(id)] + Ticks(id, n - 1)
  }

  function Stalling(maxRatio: real, step: DailyStep): Job {
    Daily(1, Some(1), maxRatio, step)
  }

  function Second(maxRatio: real): Job {
    Daily(1, None, maxRatio, ReadBronzeMark)
  }

  /** The first job computes day 1 from nothing. */
  function Early(maxRatio: real): seq<Action> {
    [Spawn(0, Stalling(maxRatio, ReadBronzeMark)), Tick(0), Tick(0), Tick(0)]
  }

  /** The day arrives and settles, and a second daily run starts. */
  function Arrival(rows: set<BronzeRow>, maxRatio: real): seq<Action> {
    [CommitBronze({1}, rows), Settle(1), MoveBronzeMark(1), Spawn(1, Second(maxRatio))]
  }

  /** All of it, and then the second run's `steps` steps. */
  function Before(rows: set<BronzeRow>, maxRatio: real, steps: nat): seq<Action> {
    Early(maxRatio) + Arrival(rows, maxRatio) + Ticks(1, steps)
  }

  /** The first job goes on: quarantine commit, Silver commit. */
  function Late(): seq<Action> {
    [Tick(0), Tick(0)]
  }

  lemma {:induction false} RunAppends(sys: System, a: seq<Action>, b: seq<Action>)
    ensures Run(sys, a + b) == Run(Run(sys, a), b)
    ensures Timely(sys, a) && Timely(Run(sys, a), b) ==> Timely(sys, a + b)
    decreases |a|
  {
    if a == [] {
      assert a + b == b;
    } else {
      RunAppends(Next(sys, a[0]), a[1..], b);
      assert (a + b)[0] == a[0] && (a + b)[1..] == a[1..] + b;
    }
  }

  /** Scheduling only one daily job without a current day is the sequential program, and timely. */
  lemma {:induction false} TicksAreAlone(sys: System, id: nat, n: nat)
    requires id in sys.jobs && Consistent(sys.store.bronze)
    requires sys.jobs[id].Finished? || (sys.jobs[id].Daily? && sys.jobs[id].current == None)
    ensures var end := Alone(Solo(sys.store, sys.jobs[id]), n);
            Run(sys, Ticks(id, n)) == sys.(store := end.store, jobs := sys.jobs[id := end.job])
    ensures Timely(sys, Ticks(id, n))
    decreases n
  {
    if n == 0 {
      assert sys.jobs[id := sys.jobs[id]] == sys.jobs;
    } else {
      var next := Next(sys, Tick(id));
      KeepsItsKind(sys.store, sys.jobs[id]);
      TicksAreAlone(next, id, n - 1);
      assert Ticks(id, n)[0] == Tick(id) && Ticks(id, n)[1..] == Ticks(id, n - 1);
      assert next == sys.(store := next.store, jobs := sys.jobs[id := next.jobs[id]]);
      assert StepSolo(Solo(sys.store, sys.jobs[id])) == Solo(next.store, next.jobs[id]);
    }
  }

  lemma KeepsItsKind(st: Store, job: Job)
    requires job.Finished? || (job.Daily? && job.current == None)
    ensures var (st', job', plans) := StepJob(st, job);
            st'.bronze == st.bronze && plans == {} && (job'.Finished? || (job'.Daily? && job'.current == None))
  {
    hide Transform, ReplaceRange;
  }

  lemma NothingComputed(maxRatio: real)
    ensures Transform(InRange({}, 1, 1), maxRatio) == Ok(Output({}, {}))
  {
    EmptyInEmptyOut();
    QuarantineIsPart({});
    assert InRange({}, 1, 1) == {};
    assert Unrepeated({}) == {};
  }

  function WithFirst(st: Store, maxRatio: real, step: DailyStep): System {
    System(st, map[0 := Stalling(maxRatio, step)], {})
  }

  /** The stalled job holds an empty result. */
  function Holding(st: Store, maxRatio: real): System {
    WithFirst(st, maxRatio, CurrentDay(None, Computed(Output({}, {}))))
  }

  lemma EarlyRun(maxRatio: real)
    ensures Run(Empty(), Early(maxRatio)) == Holding(Empty().store, maxRatio)
    ensures Timely(Empty(), Early(maxRatio))
  {
    NothingComputed(maxRatio);
    hide Transform, InRange;
    var st, all := Empty().store, Early(maxRatio);
    var s1 := WithFirst(st, maxRatio, ReadBronzeMark);
    var s2 := WithFirst(st, maxRatio, ReadSilverMark(0));
    var s3 := WithFirst(st, maxRatio, CurrentDay(None, Reading));
    var s4 := Holding(st, maxRatio);
    assert Next(Empty(), all[0]) == s1;
    assert Next(s1, all[1]) == s2;
    assert Next(s2, all[2]) == s3;
    assert Next(s3, all[3]) == s4;
    assert Run(Empty(), all) == Run(s1, all[1..]) == Run(s2, all[2..]) == Run(s3, all[3..]) == Run(s4, all[4..]) == s4;
    assert Timely(s4, all[4..]) && Timely(s3, all[3..]) && Timely(s2, all[2..]) && Timely(s1, all[1..]);
  }

  /** Bronze holds the settled day. */
  function Arrived(rows: set<BronzeRow>): Store {
    Store(0, rows, {}, {}, map[], 1, 0, {1})
  }

  lemma ArrivalRun(rows: set<BronzeRow>, maxRatio: real)
    requires Consistent(rows) && forall r | r in rows :: r.partition == 1
    ensures var sys, end := Holding(Empty().store, maxRatio), Holding(Arrived(rows), maxRatio);
            && Run(sys, Arrival(rows, maxRatio)) == end.(jobs := end.jobs[1 := Second(maxRatio)])
            && Timely(sys, Arrival(rows, maxRatio))
  {
    hide Transform, InRange;
    var all := Arrival(rows, maxRatio);
    var s0 := Holding(Empty().store, maxRatio);
    var s1 := Holding(Store(0, rows, {}, {}, map[], 0, 0, {}), maxRatio);
    var s2 := Holding(Store(0, rows, {}, {}, map[], 0, 0, {1}), maxRatio);
    var s3 := Holding(Arrived(rows), maxRatio);
    var s4 := s3.(jobs := s3.jobs[1 := Second(maxRatio)]);
    assert Next(s0, all[0]) == s1;
    assert Next(s1, all[1]) == s2;
    assert Next(s2, all[2]) == s3;
    assert Next(s3, all[3]) == s4;
    assert Run(s0, all) == Run(s1, all[1..]) == Run(s2, all[2..]) == Run(s3, all[3..]) == Run(s4, all[4..]) == s4;
    assert Timely(s4, all[4..]) && Timely(s3, all[3..]) && Timely(s2, all[2..]) && Timely(s1, all[1..]);
  }

  lemma BeforeIs(rows: set<BronzeRow>, maxRatio: real, steps: nat)
    ensures Before(rows, maxRatio, steps) == Early(maxRatio) + Arrival(rows, maxRatio) + Ticks(1, steps)
  {
  }

  /** Both jobs, the first stalled and the second about to start, with the day in Bronze. */
  function Loaded(rows: set<BronzeRow>, maxRatio: real): System {
    var held := Holding(Arrived(rows), maxRatio);
    held.(jobs := held.jobs[1 := Second(maxRatio)])
  }

  lemma LoadedRun(rows: set<BronzeRow>, maxRatio: real)
    requires Consistent(rows) && forall r | r in rows :: r.partition == 1
    ensures Run(Empty(), Early(maxRatio) + Arrival(rows, maxRatio)) == Loaded(rows, maxRatio)
    ensures Timely(Empty(), Early(maxRatio) + Arrival(rows, maxRatio))
  {
    hide *;
    EarlyRun(maxRatio);
    ArrivalRun(rows, maxRatio);
    RunAppends(Empty(), Early(maxRatio), Arrival(rows, maxRatio));
    LoadedIs(rows, maxRatio);
  }

  lemma LoadedIs(rows: set<BronzeRow>, maxRatio: real)
    ensures var held := Holding(Arrived(rows), maxRatio);
            Loaded(rows, maxRatio) == held.(jobs := held.jobs[1 := Second(maxRatio)])
  {
  }

  /** The second run takes the day to its end, alone. */
  lemma SecondRuns(rows: set<BronzeRow>, maxRatio: real, out: Output) returns (steps: nat, end: System)
    requires Consistent(rows) && forall r | r in rows :: r.partition == 1
    requires Transform(rows, maxRatio) == Ok(out)
    ensures Run(Loaded(rows, maxRatio), Ticks(1, steps)) == end && Timely(Loaded(rows, maxRatio), Ticks(1, steps))
    ensures end.store == Processed(Arrived(rows), Range(1, 1), out).(silverMark := 1)
    ensures 0 in end.jobs && end.jobs[0] == Stalling(maxRatio, CurrentDay(None, Computed(Output({}, {}))))
  {
    hide Transform, Consistent, Run, Timely, Ticks, Alone, Processed;
    assert InRange(rows, 1, 1) == rows;
    steps := DailyAlone(Arrived(rows), 1, None, maxRatio);
    TicksAreAlone(Loaded(rows, maxRatio), 1, steps);
    end := Run(Loaded(rows, maxRatio), Ticks(1, steps));
  }

  /** The state in which the first job goes on: the second one has finished the day. */
  lemma StallsThere(rows: set<BronzeRow>, maxRatio: real, out: Output) returns (steps: nat, sys: System)
    requires Consistent(rows) && forall r | r in rows :: r.partition == 1
    requires Transform(rows, maxRatio) == Ok(out)
    ensures Run(Empty(), Before(rows, maxRatio, steps)) == sys && Timely(Empty(), Before(rows, maxRatio, steps))
    ensures sys.store == Processed(Arrived(rows), Range(1, 1), out).(silverMark := 1)
    ensures 0 in sys.jobs && sys.jobs[0] == Stalling(maxRatio, CurrentDay(None, Computed(Output({}, {}))))
  {
    hide *;
    steps, sys := SecondRuns(rows, maxRatio, out);
    LoadedRun(rows, maxRatio);
    RunAppends(Empty(), Early(maxRatio) + Arrival(rows, maxRatio), Ticks(1, steps));
    BeforeIs(rows, maxRatio, steps);
  }

  lemma LateRun(sys: System, maxRatio: real)
    requires 0 in sys.jobs && sys.jobs[0] == Stalling(maxRatio, CurrentDay(None, Computed(Output({}, {}))))
    ensures Run(sys, Late()).store == Processed(sys.store, Range(1, 1), Output({}, {}))
  {
    hide ReplaceRange;
    var s1 := Next(sys, Tick(0));
    assert s1.jobs[0] == Stalling(maxRatio, CurrentDay(None, QuarantineWritten(Output({}, {}))));
    var s2 := Next(s1, Tick(0));
    assert Late()[0] == Tick(0) && Late()[1..] == [Tick(0)];
    assert Run(s1, [Tick(0)]) == Run(s2, []) == s2;
  }

  /** From a fresh deployment, by a schedule that is timely up to the stalled job's commits, those
      commits leave the protocol safe exactly when the day has nothing to hold in either table. */
  lemma StaleCurrentDayBreaksSafety(rows: set<BronzeRow>, maxRatio: real) returns (steps: nat)
    requires Consistent(rows) && (forall r | r in rows :: r.partition == 1) && Transform(rows, maxRatio).Ok?
    ensures Fresh(Empty()) && Timely(Empty(), Before(rows, maxRatio, steps))
    ensures Safe(Run(Empty(), Before(rows, maxRatio, steps)).store)
    ensures Safe(Run(Empty(), Before(rows, maxRatio, steps) + Late()).store) <==> Clean(rows) == {} && Quarantined(rows) == {}
  {
    var sys;
    TransformGives(rows, maxRatio);
    hide *;
    var out := Transform(rows, maxRatio).value;
    steps, sys := StallsThere(rows, maxRatio, out);
    FreshAtFirst();
    RunsAreSafe(Empty(), Before(rows, maxRatio, steps));
    RunAppends(Empty(), Before(rows, maxRatio, steps), Late());
    LateRun(sys, maxRatio);
    StoreOf(sys);
    OverwritesDayOne(sys.store, rows);
  }

  lemma OverwritesDayOne(st: Store, rows: set<BronzeRow>)
    requires StoreInv(st) && st.origin == 0 && st.silverMark == 1
    requires st.bronze == rows && forall r | r in rows :: r.partition == 1
    ensures Safe(Processed(st, Range(1, 1), Output({}, {}))) <==> Clean(rows) == {} && Quarantined(rows) == {}
  {
    CurrentDayCommitIsSafeIff(st, 1, Output({}, {}));
    assert InRange(rows, 1, 1) == rows;
    hide Clean, Quarantined, StoreInv, Safe, ReplaceRange;
  }

  lemma StoreOf(sys: System)
    requires Inv(sys)
    ensures StoreInv(sys.store)
  {
  }

  lemma FreshAtFirst()
    ensures Fresh(Empty()) && Inv(Empty())
  {
  }

  /** One clean row is enough. */
  lemma OneRowIsLost() returns (rows: set<BronzeRow>, steps: nat)
    ensures Fresh(Empty()) && Timely(Empty(), Before(rows, 0.5, steps))
    ensures Safe(Run(Empty(), Before(rows, 0.5, steps)).store)
    ensures !Safe(Run(Empty(), Before(rows, 0.5, steps) + Late()).store)
  {
    var row := BronzeRow(Some("b"), At(20), NoText, None, None, None, 1, None, None);
    rows := {row};
    assert TypedRows(rows) == {Typed(row)};
    SingletonDedup(Typed(row));
    assert Clean(rows) == {Typed(row)} && Quarantined(rows) == {};
    QualityGateNeverFires(rows, 0.5);
    assert Transform(rows, 0.5).Ok?;
    hide Transform, Clean, Quarantined, Before;
    steps := StaleCurrentDayBreaksSafety(rows, 0.5);
  }
}
