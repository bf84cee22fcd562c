/** The generated collect and deploy log (pipeline/bikeman_event_generator/jobs). */
module EventLog {
  import opened Basics

  datatype Kind = Collect | Deploy

  /** What the event id is made of. */
  datatype Key = Key(bike: string, kind: Kind, day: Day)

  datatype Event = Event(key: Key, station: Option<string>, worker: string, occurredAt: int, receivedAt: int)

  type Log = map<Key, Event>

  const DAY_SECONDS := 86400
  const OCCURRED_SECONDS := 32400
  const RECEIVED_DELAY := 900

  // ---------------------------------------------------------------- event ids

  function KindText(k: Kind): string {
    match k
    case Collect => "COLLECT"
    case Deploy => "DEPLOY"
  }

  /** The name hashed into the UUIDv5 (section 5.5 of RFC 9562); `date` is an ISO date. */
  function Name(bike: string, kind: Kind, date: string): string {
    bike + ":" + KindText(kind) + ":" + date
  }

  /** Distinct events have distinct names, whatever characters a bike number contains. */
  lemma NameIsInjective(bike: string, kind: Kind, date: string, bike': string, kind': Kind, date': string)
    requires |date| == |date'| == 10
    requires Name(bike, kind, date) == Name(bike', kind', date')
    ensures bike == bike' && kind == kind' && date == date'
  {
    var n, m := Name(bike, kind, date), Name(bike', kind', date');
    assert n[|n| - 10..] == date && m[|m| - 10..] == date';
    var front, front' := bike + ":" + KindText(kind), bike' + ":" + KindText(kind');
    assert n[..|n| - 11] == front && m[..|m| - 11] == front';
    assert front[|front| - 1] == KindText(kind)[|KindText(kind)| - 1];
    assert front'[|front'| - 1] == KindText(kind')[|KindText(kind')| - 1];
    assert kind == kind';
    assert front[..|bike|] == bike && front'[..|bike'|] == bike';
  }

  // ---------------------------------------------------------------- events and queries

  /** _build_event: a fixed time of the target date. */
  function BuildEvent(bike: string, kind: Kind, station: Option<string>, day: Day, worker: string): Event {
    var occurred := day * DAY_SECONDS + OCCURRED_SECONDS;
    Event(Key(bike, kind, day), station, worker, occurred, occurred + RECEIVED_DELAY)
  }

  /** An event carries what it was built from, happened at 9:00 of its day and was received at 9:15. */
  lemma EventOnTheClock(bike: string, kind: Kind, station: Option<string>, day: Day, worker: string)
    ensures var e := BuildEvent(bike, kind, station, day, worker);
            && e.key == Key(bike, kind, day) && e.station == station && e.worker == worker
            && e.occurredAt == ((day * 24 + 9) * 60) * 60 && e.receivedAt == ((day * 24 + 9) * 60 + 15) * 60
  {
  }

  /** Every stored event was built by the jobs. */
  ghost predicate Built(log: Log) {
    forall k | k in log :: log[k] == BuildEvent(k.bike, k.kind, log[k].station, k.day, log[k].worker)
  }

  /** ORDER BY occurred_at DESC, (event_type = 'COLLECT') DESC. */
  predicate Beats(e: Event, f: Event) {
    e.occurredAt > f.occurredAt || (e.occurredAt == f.occurredAt && (e.key.kind == Collect || f.key.kind == Deploy))
  }

  /** DISTINCT ON (bike_id) over the events before the target date. */
  ghost predicate Latest(log: Log, day: Day, k: Key) {
    && k in log && log[k].occurredAt < day * DAY_SECONDS
    && (forall j | j in log && j.bike == k.bike && log[j].occurredAt < day * DAY_SECONDS :: Beats(log[k], log[j]))
  }

  /** The order leaves no choice: each bike has one latest event. */
  lemma LatestIsUnique(log: Log, day: Day, k: Key, l: Key)
    requires Built(log) && Latest(log, day, k) && Latest(log, day, l) && k.bike == l.bike
    ensures k == l
  {
  }

  /** fetch_deploy_targets: the latest event is a COLLECT of the day before. */
  ghost predicate DeployTarget(log: Log, day: Day, bike: string, station: Option<string>) {
    exists k :: Latest(log, day, k) && k.bike == bike && log[k].station == station
                && log[k].key.kind == Collect && log[k].occurredAt / DAY_SECONDS == day - 1
  }

  /** The query returns exactly the bikes collected the day before, each at its collect station, however
      many other events those bikes have. */
  lemma DeployTargetsAreYesterdaysCollections(log: Log, day: Day, bike: string, station: Option<string>)
    requires Built(log)
    ensures DeployTarget(log, day, bike, station)
       <==> Key(bike, Collect, day - 1) in log && log[Key(bike, Collect, day - 1)].station == station
  {
    var k := Key(bike, Collect, day - 1);
    if DeployTarget(log, day, bike, station) {
      var l :| Latest(log, day, l) && l.bike == bike && log[l].station == station
               && log[l].key.kind == Collect && log[l].occurredAt / DAY_SECONDS == day - 1;
      assert l == k;
    }
    if k in log {
      forall j | j in log && j.bike == bike && log[j].occurredAt < day * DAY_SECONDS ensures Beats(log[k], log[j]) {
        assert j.day <= day - 1;
      }
      assert Latest(log, day, k);
    }
  }

  // ---------------------------------------------------------------- steps

  /** What a run of either job writes: one event per target, with the workers it drew. */
  function EventsFor(targets: map<string, Option<string>>, kind: Kind, day: Day, workers: string -> string): Log {
    map b | b in targets :: Key(b, kind, day) := BuildEvent(b, kind, targets[b], day, workers(b))
  }

  /** ON CONFLICT DO NOTHING. */
  function Merge(log: Log, added: Log): Log {
    map k | k in log.Keys + added.Keys :: if k in log then log[k] else added[k]
  }

  function CollectedOn(log: Log, day: Day): set<string> {
    set k | k in log && k.kind == Collect && k.day == day :: k.bike
  }

  /** What the deploy-target query returns (see DeployTargetsAreYesterdaysCollections). */
  function Yesterday(log: Log, day: Day): map<string, Option<string>> {
    var bikes := CollectedOn(log, day - 1);
    map b | b in bikes :: log[Key(b, Collect, day - 1)].station
  }

  lemma YesterdayAt(log: Log, day: Day, bike: string)
    ensures bike in Yesterday(log, day) <==> Key(bike, Collect, day - 1) in log
    ensures bike in Yesterday(log, day) ==> Yesterday(log, day)[bike] == log[Key(bike, Collect, day - 1)].station
  {
    var k := Key(bike, Collect, day - 1);
    if k in log {
      assert k.bike in CollectedOn(log, day - 1);
    }
  }

  /** A step of either job; the collect targets of a date do not change. */
  datatype Step = CollectOn(day: Day, workers: string -> string) | DeployOn(day: Day, workers: string -> string)

  type Targets = Day -> map<string, Option<string>>

  function Apply(targets: Targets, log: Log, s: Step): Log {
    match s
    case CollectOn(day, workers) => Merge(log, EventsFor(targets(day), Collect, day, workers))
    case DeployOn(day, workers) => Merge(log, EventsFor(Yesterday(log, day), Deploy, day, workers))
  }

  function Run(targets: Targets, log: Log, steps: seq<Step>): Log
    decreases |steps|
  {
    if steps == [] then log else Apply(targets, Run(targets, log, steps[..|steps| - 1]), steps[|steps| - 1])
  }

  /** The log without the workers that happened to be drawn. */
  function Bare(log: Log): map<Key, Option<string>> {
    map k | k in log :: log[k].station
  }

  // ---------------------------------------------------------------- the canonical log

  /** The days collected, and the days deployed at a time when their collections were there. */
  ghost function CollectDays(steps: seq<Step>): set<Day> {
    set s | s in steps && s.CollectOn? :: s.day
  }

  ghost function EffectiveDeploys(steps: seq<Step>): set<Day> {
    if steps == [] then {}
    else
      var front, s := steps[..|steps| - 1], steps[|steps| - 1];
      EffectiveDeploys(front) + if s.DeployOn? && s.day - 1 in CollectDays(front) then {s.day} else {}
  }

  predicate InCanonical(targets: Targets, collected: set<Day>, deployed: set<Day>, k: Key) {
    match k.kind
    case Collect => k.day in collected && k.bike in targets(k.day)
    case Deploy => k.day in deployed && k.bike in targets(k.day - 1)
  }

  function CanonicalStation(targets: Targets, k: Key): Option<string>
    requires k.bike in targets(if k.kind == Collect then k.day else k.day - 1)
  {
    if k.kind == Collect then targets(k.day)[k.bike] else targets(k.day - 1)[k.bike]
  }

  /** The log holds exactly these events, at these stations. */
  ghost predicate Canonical(targets: Targets, collected: set<Day>, deployed: set<Day>, log: Log) {
    && Built(log)
    && (forall k :: k in log <==> InCanonical(targets, collected, deployed, k))
    && (forall k | k in log :: log[k].station == CanonicalStation(targets, k))
  }

  /** The key a step adds unless it is there, and the station it writes. */
  predicate Adds(targets: Targets, log: Log, s: Step, k: Key) {
    k.day == s.day &&
    (if s.CollectOn? then k.kind == Collect && k.bike in targets(s.day)
     else k.kind == Deploy && Key(k.bike, Collect, s.day - 1) in log)
  }

  function AddedStation(targets: Targets, log: Log, s: Step, k: Key): Option<string>
    requires Adds(targets, log, s, k)
  {
    if s.CollectOn? then targets(s.day)[k.bike] else log[Key(k.bike, Collect, s.day - 1)].station
  }

  lemma ApplyAt(targets: Targets, log: Log, s: Step, k: Key)
    ensures k in Apply(targets, log, s) <==> k in log || Adds(targets, log, s, k)
    ensures k in log ==> Apply(targets, log, s)[k] == log[k]
    ensures k !in log && Adds(targets, log, s, k) ==>
      Apply(targets, log, s)[k] == BuildEvent(k.bike, k.kind, AddedStation(targets, log, s, k), k.day, s.workers(k.bike))
  {
    hide Yesterday, BuildEvent;
    if s.CollectOn? {
      EventsAt(targets(s.day), Collect, s.day, s.workers, k);
    } else {
      YesterdayAt(log, s.day, k.bike);
      EventsAt(Yesterday(log, s.day), Deploy, s.day, s.workers, k);
    }
  }

  lemma EventsAt(targets: map<string, Option<string>>, kind: Kind, day: Day, workers: string -> string, k: Key)
    ensures k in EventsFor(targets, kind, day, workers) <==> k.kind == kind && k.day == day && k.bike in targets
    ensures k in EventsFor(targets, kind, day, workers) ==>
      EventsFor(targets, kind, day, workers)[k] == BuildEvent(k.bike, kind, targets[k.bike], day, workers(k.bike))
  {
    hide BuildEvent;
    if k.kind == kind && k.day == day && k.bike in targets {
      assert Key(k.bike, kind, day) == k;
    }
  }

  lemma CanonicalStep(
    targets: Targets, collected: set<Day>, deployed: set<Day>, log: Log, s: Step,
    collected': set<Day>, deployed': set<Day>)
    requires Canonical(targets, collected, deployed, log) && forall d | d in deployed :: d - 1 in collected
    requires collected' == collected + if s.CollectOn? then {s.day} else {}
    requires deployed' == deployed + if s.DeployOn? && s.day - 1 in collected then {s.day} else {}
    ensures Canonical(targets, collected', deployed', Apply(targets, log, s))
  {
    hide Apply;
    forall k
      ensures k in Apply(targets, log, s) <==> InCanonical(targets, collected', deployed', k)
      ensures k in Apply(targets, log, s) ==>
        var e := Apply(targets, log, s)[k];
        e.station == CanonicalStation(targets, k) && e == BuildEvent(k.bike, k.kind, e.station, k.day, e.worker)
    {
      ApplyAt(targets, log, s, k);
      var y := Key(k.bike, Collect, s.day - 1);
      assert y in log <==> InCanonical(targets, collected, deployed, y);
      assert k in log <==> InCanonical(targets, collected, deployed, k);
    }
  }

  /** Whatever the order and however often steps are repeated, the log is the canonical one of the days
      collected and the days effectively deployed. */
  lemma {:induction false} LogIsCanonical(targets: Targets, steps: seq<Step>)
    ensures Canonical(targets, CollectDays(steps), EffectiveDeploys(steps), Run(targets, map[], steps))
    ensures forall d | d in EffectiveDeploys(steps) :: d - 1 in CollectDays(steps)
    decreases |steps|
  {
    hide Apply, Canonical;
    if steps == [] {
      NothingYet(targets);
      assert CollectDays(steps) == {};
    } else {
      var front, s := steps[..|steps| - 1], steps[|steps| - 1];
      LogIsCanonical(targets, front);
      DaysAppend(steps);
      CanonicalStep(targets, CollectDays(front), EffectiveDeploys(front), Run(targets, map[], front), s,
                    CollectDays(steps), EffectiveDeploys(steps));
    }
  }

  lemma NothingYet(targets: Targets)
    ensures Canonical(targets, {}, {}, map[])
  {
  }

  lemma DaysAppend(steps: seq<Step>)
    requires steps != []
    ensures var front, s := steps[..|steps| - 1], steps[|steps| - 1];
            CollectDays(steps) == CollectDays(front) + if s.CollectOn? then {s.day} else {}
  {
    assert steps == steps[..|steps| - 1] + [steps[|steps| - 1]];
  }

  lemma SameCanonicalLogs(targets: Targets, collected: set<Day>, deployed: set<Day>, log: Log, log': Log)
    requires Canonical(targets, collected, deployed, log) && Canonical(targets, collected, deployed, log')
    ensures Bare(log) == Bare(log')
  {
    forall k ensures k in log <==> k in log' {
      assert k in log <==> InCanonical(targets, collected, deployed, k);
      assert k in log' <==> InCanonical(targets, collected, deployed, k);
    }
  }

  ghost function DeployDays(steps: seq<Step>): set<Day> {
    set s | s in steps && s.DeployOn? :: s.day
  }

  /** COLLECT of the day before runs ahead of some DEPLOY of each day that is deployed. */
  ghost predicate CollectsFirst(steps: seq<Step>) {
    forall d | d in DeployDays(steps) && d - 1 in CollectDays(steps) :: CollectedAhead(steps, d)
  }

  ghost predicate CollectedAhead(steps: seq<Step>, d: Day) {
    exists i, j :: 0 <= i < j < |steps| && steps[i].CollectOn? && steps[i].day == d - 1 && steps[j].DeployOn? && steps[j].day == d
  }

  lemma AheadStays(front: seq<Step>, s: Step, d: Day)
    requires CollectedAhead(front, d) || (s.DeployOn? && s.day == d && d - 1 in CollectDays(front))
    ensures CollectedAhead(front + [s], d)
  {
    var steps := front + [s];
    if CollectedAhead(front, d) {
      var i, j :| 0 <= i < j < |front| && front[i].CollectOn? && front[i].day == d - 1 && front[j].DeployOn? && front[j].day == d;
      assert steps[i] == front[i] && steps[j] == front[j];
    } else {
      var c :| c in front && c.CollectOn? && c.day == d - 1;
      var i :| 0 <= i < |front| && front[i] == c;
      assert steps[i] == c && steps[|front|] == s;
    }
  }

  lemma AheadComesFrom(front: seq<Step>, s: Step, d: Day)
    requires CollectedAhead(front + [s], d)
    ensures CollectedAhead(front, d) || (s.DeployOn? && s.day == d && d - 1 in CollectDays(front))
  {
    var steps := front + [s];
    var i, j :| 0 <= i < j < |steps| && steps[i].CollectOn? && steps[i].day == d - 1 && steps[j].DeployOn? && steps[j].day == d;
    assert front[i] == steps[i] && front[i] in front;
    if j < |front| {
      assert front[j] == steps[j];
    }
  }

  lemma {:induction false} AheadIsEffective(steps: seq<Step>, d: Day)
    ensures d in EffectiveDeploys(steps) <==> CollectedAhead(steps, d)
    decreases |steps|
  {
    if steps != [] {
      var front, s := steps[..|steps| - 1], steps[|steps| - 1];
      assert steps == front + [s];
      AheadIsEffective(front, d);
      hide CollectedAhead, CollectDays;
      if CollectedAhead(front + [s], d) {
        AheadComesFrom(front, s, d);
      }
      if CollectedAhead(front, d) || (s.DeployOn? && s.day == d && d - 1 in CollectDays(front)) {
        AheadStays(front, s, d);
      }
    }
  }

  /** Main result: any two orders of the same days, each running COLLECT(d-1) before DEPLOY(d), with any
      repetitions, reach the same log up to the workers. */
  lemma OrderDoesNotMatter(targets: Targets, steps: seq<Step>, steps': seq<Step>)
    requires CollectDays(steps) == CollectDays(steps') && DeployDays(steps) == DeployDays(steps')
    requires CollectsFirst(steps) && CollectsFirst(steps')
    ensures Bare(Run(targets, map[], steps)) == Bare(Run(targets, map[], steps'))
  {
    LogIsCanonical(targets, steps);
    LogIsCanonical(targets, steps');
    forall d ensures d in EffectiveDeploys(steps) <==> d in EffectiveDeploys(steps') {
      AheadIsEffective(steps, d);
      AheadIsEffective(steps', d);
      AheadHasDays(steps, d);
      AheadHasDays(steps', d);
    }
    assert EffectiveDeploys(steps) == EffectiveDeploys(steps');
    SameCanonicalLogs(targets, CollectDays(steps), EffectiveDeploys(steps), Run(targets, map[], steps), Run(targets, map[], steps'));
  }

  lemma AheadHasDays(steps: seq<Step>, d: Day)
    ensures CollectedAhead(steps, d) ==> d in DeployDays(steps) && d - 1 in CollectDays(steps)
  {
    if CollectedAhead(steps, d) {
      var i, j :| 0 <= i < j < |steps| && steps[i].CollectOn? && steps[i].day == d - 1 && steps[j].DeployOn? && steps[j].day == d;
      assert steps[i] in steps && steps[j] in steps;
    }
  }

  /** DEPLOY(d) and COLLECT(d) commute, even in the workers they write. */
  lemma SameDayStepsCommute(targets: Targets, log: Log, day: Day, w: string -> string, v: string -> string)
    ensures Apply(targets, Apply(targets, log, CollectOn(day, w)), DeployOn(day, v))
         == Apply(targets, Apply(targets, log, DeployOn(day, v)), CollectOn(day, w))
  {
    hide Apply, BuildEvent;
    var c, d := CollectOn(day, w), DeployOn(day, v);
    var left, right := Apply(targets, Apply(targets, log, c), d), Apply(targets, Apply(targets, log, d), c);
    forall k
      ensures k in left <==> k in right
      ensures k in left ==> left[k] == right[k]
    {
      ApplyAt(targets, log, c, k);
      ApplyAt(targets, log, d, k);
      ApplyAt(targets, Apply(targets, log, c), d, k);
      ApplyAt(targets, Apply(targets, log, d), c, k);
      ApplyAt(targets, log, c, Key(k.bike, Collect, day - 1));
    }
  }

  /** Replaying a step at once inserts nothing, whatever workers are drawn the second time. */
  lemma ReplayInsertsNothing(targets: Targets, log: Log, s: Step, again: Step)
    requires again.day == s.day && (again.CollectOn? <==> s.CollectOn?)
    ensures Apply(targets, Apply(targets, log, s), again) == Apply(targets, log, s)
  {
    hide Apply, BuildEvent;
    var once := Apply(targets, log, s);
    var twice := Apply(targets, once, again);
    forall k
      ensures k in twice <==> k in once
      ensures k in once ==> twice[k] == once[k]
    {
      ApplyAt(targets, log, s, k);
      ApplyAt(targets, once, again, k);
      ApplyAt(targets, log, s, Key(k.bike, Collect, s.day - 1));
    }
  }

  /** And so does replaying it at any later time, once its own day is in the log. */
  lemma LaterReplayInsertsNothing(targets: Targets, steps: seq<Step>, s: Step)
    requires s.CollectOn? ==> s.day in CollectDays(steps)
    requires s.DeployOn? ==> s.day in EffectiveDeploys(steps) || s.day - 1 !in CollectDays(steps)
    ensures Apply(targets, Run(targets, map[], steps), s) == Run(targets, map[], steps)
  {
    LogIsCanonical(targets, steps);
    hide Apply, BuildEvent, Run;
    var log := Run(targets, map[], steps);
    var again := Apply(targets, log, s);
    forall k
      ensures k in again <==> k in log
      ensures k in log ==> again[k] == log[k]
    {
      ApplyAt(targets, log, s, k);
      var y := Key(k.bike, Collect, s.day - 1);
      assert y in log <==> InCanonical(targets, CollectDays(steps), EffectiveDeploys(steps), y);
      assert k in log <==> InCanonical(targets, CollectDays(steps), EffectiveDeploys(steps), k);
    }
  }

  // ---------------------------------------------------------------- the database

  const BATCH_SIZE := 500

  function InsertOne(log: Log, e: Event): Log {
    if e.key in log then log else log[e.key := e]
  }

  function InsertAll(log: Log, events: seq<Event>): Log {
    if events == [] then log else InsertOne(InsertAll(log, events[..|events| - 1]), events[|events| - 1])
  }

  lemma {:induction false} InsertAllSplits(log: Log, a: seq<Event>, b: seq<Event>)
    ensures InsertAll(log, a + b) == InsertAll(InsertAll(log, a), b)
    decreases |b|
  {
    if b == [] {
      assert a + b == a;
    } else {
      assert (a + b)[..|a + b| - 1] == a + b[..|b| - 1];
      InsertAllSplits(log, a, b[..|b| - 1]);
    }
  }

  lemma {:induction false} InsertAllGrows(log: Log, events: seq<Event>)
    ensures log.Keys <= InsertAll(log, events).Keys && |log| <= |InsertAll(log, events)|
    decreases |events|
  {
    if events != [] {
      InsertAllGrows(log, events[..|events| - 1]);
    }
  }

  /** `events` lists exactly the rows of `added`, in some order. */
  ghost predicate Lists(events: seq<Event>, added: Log) {
    && (forall e | e in events :: e.key in added && added[e.key] == e)
    && (forall k | k in added :: added[k] in events && added[k].key == k)
  }

  lemma {:induction false} InsertedAt(log: Log, events: seq<Event>, added: Log, k: Key)
    requires forall e | e in events :: e.key in added && added[e.key] == e
    ensures k in InsertAll(log, events) <==> k in log || (k in added && added[k] in events && added[k].key == k)
    ensures k in InsertAll(log, events) ==> InsertAll(log, events)[k] == if k in log then log[k] else added[k]
    decreases |events|
  {
    if events != [] {
      var n := |events| - 1;
      InsertedAt(log, events[..n], added, k);
      assert events == events[..n] + [events[n]];
    }
  }

  lemma ListsAreMerged(log: Log, events: seq<Event>, added: Log)
    requires Lists(events, added)
    ensures InsertAll(log, events) == Merge(log, added)
  {
    forall k ensures k in InsertAll(log, events) <==> k in Merge(log, added) {
      InsertedAt(log, events, added, k);
    }
    forall k | k in Merge(log, added) ensures InsertAll(log, events)[k] == Merge(log, added)[k] {
      InsertedAt(log, events, added, k);
    }
  }

  class EventTable {
    var log: Log

    constructor ()
      ensures log == map[]
    {
      log := map[];
    }

    /** Inserts in batches, skipping keys that are there, and counts the rows really written. */
    method InsertEvents(events: seq<Event>) returns (inserted: nat)
      modifies this
      ensures log == InsertAll(old(log), events) && inserted == |log| - |old(log)|
    {
      inserted := 0;
      var i := 0;
      while i < |events|
        invariant i <= |events|
        invariant log == InsertAll(old(log), events[..i]) && inserted == |log| - |old(log)|
      {
        var next := Min(i + BATCH_SIZE, |events|);
        var before := |log|;
        InsertAllSplits(old(log), events[..i], events[i..next]);
        InsertAllGrows(log, events[i..next]);
        assert events[..i] + events[i..next] == events[..next];
        log := InsertAll(log, events[i..next]);
        inserted := inserted + (|log| - before);
        i := next;
      }
      assert events[..i] == events;
    }

    /** generate_collect_events.run and deploy_returned_bikes.run, given the events they built. */
    method RunStep(targets: Targets, s: Step, events: seq<Event>) returns (inserted: nat)
      requires Lists(events, if s.CollectOn? then EventsFor(targets(s.day), Collect, s.day, s.workers)
                             else EventsFor(Yesterday(log, s.day), Deploy, s.day, s.workers))
      modifies this
      ensures log == Apply(targets, old(log), s) && inserted == |log| - |old(log)|
    {
      ListsAreMerged(log, events, if s.CollectOn? then EventsFor(targets(s.day), Collect, s.day, s.workers)
                                  else EventsFor(Yesterday(log, s.day), Deploy, s.day, s.workers));
      inserted := InsertEvents(events);
    }
  }
}
