/** Usage features from shared daily aggregates, for training with many anchor dates and for serving
    with one (pipeline/train_risk_model/features.py,
    pipeline/risk_model/jobs/build_bike_features_daily.py). */
module UsageFeatures {
  import opened Basics

  /** A rental; sums are taken over the reals. */
  datatype Trip = Trip(
    bike: string, day: Day, dist: Option<real>, dur: Option<real>, rentStation: Option<string>, returnStation: Option<string>)

  /** A row of the daily aggregate. */
  datatype Agg = Agg(trips: nat, dist: real, dur: real, instant: nat)

  /** The features of one bike at one anchor, before the final ratios. */
  datatype Usage = Usage(agg: Agg, firstHalf: nat, secondHalf: nat, last: Option<Day>)

  const ZERO := Usage(Agg(0, 0.0, 0.0, 0), 0, 0, None)

  // ---------------------------------------------------------------- build_daily_agg

  predicate InstantReturn(t: Trip, maxDist: real) {
    t.rentStation.Some? && t.rentStation == t.returnStation && t.dist.GetOr(99999.0) <= maxDist
  }

  function Contribution(t: Trip, maxDist: real): Agg {
    Agg(1, t.dist.GetOr(0.0), t.dur.GetOr(0.0), if InstantReturn(t, maxDist) then 1 else 0)
  }

  function AddAgg(a: Agg, b: Agg): Agg {
    Agg(a.trips + b.trips, a.dist + b.dist, a.dur + b.dur, a.instant + b.instant)
  }

  datatype BikeDay = BikeDay(bike: string, day: Day)

  function AddTrip(daily: map<BikeDay, Agg>, t: Trip, maxDist: real): map<BikeDay, Agg> {
    var key := BikeDay(t.bike, t.day);
    daily[key := if key in daily then AddAgg(daily[key], Contribution(t, maxDist)) else Contribution(t, maxDist)]
  }

  /** GROUP BY bike_id, rent date. */
  function Daily(trips: seq<Trip>, maxDist: real): map<BikeDay, Agg> {
    if trips == [] then map[] else AddTrip(Daily(trips[..|trips| - 1], maxDist), trips[|trips| - 1], maxDist)
  }

  // ---------------------------------------------------------------- build_usage_features

  function LaterOf(a: Option<Day>, b: Option<Day>): Option<Day> {
    if a.None? then b else if b.None? then a else Some(Max(a.value, b.value))
  }

  function Plus(u: Usage, v: Usage): Usage {
    Usage(AddAgg(u.agg, v.agg), u.firstHalf + v.firstHalf, u.secondHalf + v.secondHalf, LaterOf(u.last, v.last))
  }

  /** What one daily row adds, `cut` being the start of the second half of the window. */
  function OfDay(a: Agg, d: Day, cut: Day): Usage {
    Usage(a, if d < cut then a.trips else 0, if d >= cut then a.trips else 0, Some(d))
  }

  function DayPart(daily: map<BikeDay, Agg>, bike: string, d: Day, cut: Day): Usage {
    if BikeDay(bike, d) in daily then OfDay(daily[BikeDay(bike, d)], d, cut) else ZERO
  }

  /** The daily rows of one bike with from <= date < until, summed. */
  function SumDays(daily: map<BikeDay, Agg>, bike: string, from: Day, until: Day, cut: Day): Usage
    decreases until - from
  {
    if from >= until then ZERO
    else
      Plus(DayPart(daily, bike, from, cut), SumDays(daily, bike, from + 1, until, cut))
  }

  function AtAnchor(daily: map<BikeDay, Agg>, bike: string, asOf: Day, window: nat): Usage {
    SumDays(daily, bike, asOf - window, asOf, asOf - window / 2)
  }

  /** The join with the anchor list, grouped by anchor and bike: each occurrence of the anchor joins. */
  function Joined(daily: map<BikeDay, Agg>, anchors: seq<Day>, bike: string, asOf: Day, window: nat): Usage {
    if anchors == [] then ZERO
    else
      Plus(if anchors[0] == asOf then AtAnchor(daily, bike, asOf, window) else ZERO,
           Joined(daily, anchors[1..], bike, asOf, window))
  }

  // ---------------------------------------------------------------- the direct definition

  predicate InWindow(t: Trip, bike: string, from: Day, until: Day) {
    t.bike == bike && from <= t.day < until
  }

  function TripPart(t: Trip, maxDist: real, bike: string, from: Day, until: Day, cut: Day): Usage {
    if InWindow(t, bike, from, until) then OfDay(Contribution(t, maxDist), t.day, cut) else ZERO
  }

  /** One scan of the raw rentals for one bike and one anchor. */
  function Scan(trips: seq<Trip>, maxDist: real, bike: string, from: Day, until: Day, cut: Day): Usage {
    if trips == [] then ZERO
    else
      Plus(Scan(trips[..|trips| - 1], maxDist, bike, from, until, cut),
           TripPart(trips[|trips| - 1], maxDist, bike, from, until, cut))
  }

  function Direct(trips: seq<Trip>, maxDist: real, bike: string, asOf: Day, window: nat): Usage {
    Scan(trips, maxDist, bike, asOf - window, asOf, asOf - window / 2)
  }

  lemma PlusZero(u: Usage)
    ensures Plus(u, ZERO) == u == Plus(ZERO, u)
  {
  }

  lemma PlusSwap(u: Usage, v: Usage, w: Usage)
    ensures Plus(Plus(u, w), v) == Plus(Plus(u, v), w)
    ensures Plus(u, Plus(v, w)) == Plus(Plus(u, v), w)
  {
  }

  lemma OneMoreInADay(daily: map<BikeDay, Agg>, t: Trip, maxDist: real, bike: string, d: Day, cut: Day)
    ensures DayPart(AddTrip(daily, t, maxDist), bike, d, cut)
         == if t.bike == bike && t.day == d then Plus(DayPart(daily, bike, d, cut), OfDay(Contribution(t, maxDist), d, cut))
            else DayPart(daily, bike, d, cut)
  {
    hide Contribution;
  }

  /** One more trip changes the summed days by exactly that trip, if it is in the window. */
  lemma {:induction false} OneMoreTrip(daily: map<BikeDay, Agg>, t: Trip, maxDist: real, bike: string, from: Day, until: Day, cut: Day)
    ensures SumDays(AddTrip(daily, t, maxDist), bike, from, until, cut)
         == Plus(SumDays(daily, bike, from, until, cut), TripPart(t, maxDist, bike, from, until, cut))
    decreases until - from
  {
    hide Contribution, Plus, OfDay, AddTrip, DayPart;
    if from < until {
      OneMoreTrip(daily, t, maxDist, bike, from + 1, until, cut);
      OneMoreInADay(daily, t, maxDist, bike, from, cut);
      var day, days := DayPart(daily, bike, from, cut), SumDays(daily, bike, from + 1, until, cut);
      var part := OfDay(Contribution(t, maxDist), t.day, cut);
      PlusSwap(day, days, part);
      PlusZero(days);
      PlusZero(Plus(day, days));
    } else {
      PlusZero(ZERO);
    }
  }

  lemma {:induction false} DailySumsAreScans(trips: seq<Trip>, maxDist: real, bike: string, from: Day, until: Day, cut: Day)
    ensures SumDays(Daily(trips, maxDist), bike, from, until, cut) == Scan(trips, maxDist, bike, from, until, cut)
    decreases |trips|
  {
    hide Plus, AddTrip, TripPart, SumDays;
    if trips == [] {
      NoDays(bike, from, until, cut);
    } else {
      OneMoreTrip(Daily(trips[..|trips| - 1], maxDist), trips[|trips| - 1], maxDist, bike, from, until, cut);
      DailySumsAreScans(trips[..|trips| - 1], maxDist, bike, from, until, cut);
    }
  }

  lemma {:induction false} NoDays(bike: string, from: Day, until: Day, cut: Day)
    ensures SumDays(map[], bike, from, until, cut) == ZERO
    decreases until - from
  {
    hide Plus;
    if from < until {
      NoDays(bike, from + 1, until, cut);
      PlusZero(ZERO);
    }
  }

  // ---------------------------------------------------------------- what the scan counts

  ghost function CountIf(trips: seq<Trip>, p: Trip -> bool): nat {
    |set i | 0 <= i < |trips| && p(trips[i])|
  }

  lemma CountIfAppend(trips: seq<Trip>, t: Trip, p: Trip -> bool)
    ensures CountIf(trips + [t], p) == CountIf(trips, p) + if p(t) then 1 else 0
  {
    var before := set i | 0 <= i < |trips| && p(trips[i]);
    var after := set i | 0 <= i < |trips + [t]| && p((trips + [t])[i]);
    assert after == if p(t) then before + {|trips|} else before;
  }

  function Total(trips: seq<Trip>, value: Trip -> real): real {
    if trips == [] then 0.0 else Total(trips[..|trips| - 1], value) + value(trips[|trips| - 1])
  }

  function Rode(bike: string, from: Day, until: Day): Trip -> bool {
    (t: Trip) => t.bike == bike && from <= t.day < until
  }

  /** Back at the station it came from without going further than `maxDist`; an unknown distance is far. */
  function WentNowhere(bike: string, from: Day, until: Day, maxDist: real): Trip -> bool {
    (t: Trip) => Rode(bike, from, until)(t) && t.rentStation.Some? && t.returnStation == t.rentStation
                 && (if t.dist.Some? then t.dist.value <= maxDist else 99999.0 <= maxDist)
  }

  function DistanceOf(bike: string, from: Day, until: Day): Trip -> real {
    (t: Trip) => if Rode(bike, from, until)(t) && t.dist.Some? then t.dist.value else 0.0
  }

  function DurationOf(bike: string, from: Day, until: Day): Trip -> real {
    (t: Trip) => if Rode(bike, from, until)(t) && t.dur.Some? then t.dur.value else 0.0
  }

  /** The trips of the bike in the window, counted and summed: all, the instant returns, those before and
      those from the start of the second half, the distances, the durations, and the last day. */
  lemma {:induction false} ScanCounts(trips: seq<Trip>, maxDist: real, bike: string, from: Day, until: Day, cut: Day)
    requires from <= cut <= until
    ensures var u := Scan(trips, maxDist, bike, from, until, cut);
            && u.agg.trips == CountIf(trips, Rode(bike, from, until))
            && u.agg.instant == CountIf(trips, WentNowhere(bike, from, until, maxDist))
            && u.firstHalf == CountIf(trips, Rode(bike, from, cut)) && u.secondHalf == CountIf(trips, Rode(bike, cut, until))
            && u.agg.dist == Total(trips, DistanceOf(bike, from, until))
            && u.agg.dur == Total(trips, DurationOf(bike, from, until))
            && (forall t | t in trips && Rode(bike, from, until)(t) :: u.last.Some? && t.day <= u.last.value)
            && (u.last.Some? ==> exists t | t in trips && Rode(bike, from, until)(t) :: t.day == u.last.value)
    decreases |trips|
  {
    hide CountIf;
    if trips == [] {
      NothingCounted(Rode(bike, from, until));
      NothingCounted(Rode(bike, from, cut));
      NothingCounted(Rode(bike, cut, until));
      NothingCounted(WentNowhere(bike, from, until, maxDist));
    } else {
      var front, t := trips[..|trips| - 1], trips[|trips| - 1];
      ScanCounts(front, maxDist, bike, from, until, cut);
      assert trips == front + [t];
      CountIfAppend(front, t, Rode(bike, from, until));
      CountIfAppend(front, t, Rode(bike, from, cut));
      CountIfAppend(front, t, Rode(bike, cut, until));
      CountIfAppend(front, t, WentNowhere(bike, from, until, maxDist));
    }
  }

  lemma NothingCounted(p: Trip -> bool)
    ensures CountIf([], p) == 0
  {
  }

  /** At an anchor: the window is the `window` days before it, and its second half the last
      window / 2 of them. */
  lemma DirectCounts(trips: seq<Trip>, maxDist: real, bike: string, asOf: Day, window: nat)
    ensures var u := Direct(trips, maxDist, bike, asOf, window);
            && u.agg.trips == CountIf(trips, Rode(bike, asOf - window, asOf))
            && u.agg.instant == CountIf(trips, WentNowhere(bike, asOf - window, asOf, maxDist))
            && u.firstHalf == CountIf(trips, Rode(bike, asOf - window, asOf - window / 2))
            && u.secondHalf == CountIf(trips, Rode(bike, asOf - window / 2, asOf))
            && u.agg.dist == Total(trips, DistanceOf(bike, asOf - window, asOf))
            && u.agg.dur == Total(trips, DurationOf(bike, asOf - window, asOf))
  {
    hide CountIf, Total, Scan, Rode, WentNowhere, DistanceOf, DurationOf;
    ScanCounts(trips, maxDist, bike, asOf - window, asOf, asOf - window / 2);
  }

  // ---------------------------------------------------------------- many anchors

  function Count(anchors: seq<Day>, asOf: Day): nat {
    if anchors == [] then 0 else (if anchors[0] == asOf then 1 else 0) + Count(anchors[1..], asOf)
  }

  /** A sum taken n times over. */
  function Times(n: nat, u: Usage): Usage {
    if n == 0 then ZERO else Plus(u, Times(n - 1, u))
  }

  lemma {:induction false} TimesIsMultiplied(n: nat, u: Usage)
    ensures Times(n, u).agg.trips == n * u.agg.trips && Times(n, u).agg.dist == n as real * u.agg.dist
    ensures Times(n, u).agg.dur == n as real * u.agg.dur && Times(n, u).agg.instant == n * u.agg.instant
    ensures Times(n, u).firstHalf == n * u.firstHalf && Times(n, u).secondHalf == n * u.secondHalf
    ensures Times(n, u).last == if n == 0 then None else u.last
    decreases n
  {
    if n > 0 {
      TimesIsMultiplied(n - 1, u);
      assert n * u.agg.trips == u.agg.trips + (n - 1) * u.agg.trips;
      assert n * u.agg.instant == u.agg.instant + (n - 1) * u.agg.instant;
      assert n as real * u.agg.dur == u.agg.dur + (n - 1) as real * u.agg.dur;
      assert n * u.firstHalf == u.firstHalf + (n - 1) * u.firstHalf;
      assert n * u.secondHalf == u.secondHalf + (n - 1) * u.secondHalf;
      assert n as real * u.agg.dist == u.agg.dist + (n - 1) as real * u.agg.dist;
    }
  }

  /** Main result: joined with any list of anchors, the shared daily aggregate gives each anchor its
      direct scan of the raw rentals, once for every time the anchor is listed. */
  lemma {:induction false} AnchorsShareDailySums(
    trips: seq<Trip>, maxDist: real, anchors: seq<Day>, bike: string, asOf: Day, window: nat)
    ensures Joined(Daily(trips, maxDist), anchors, bike, asOf, window)
         == Times(Count(anchors, asOf), Direct(trips, maxDist, bike, asOf, window))
    decreases |anchors|
  {
    hide Plus, SumDays, Scan, Daily;
    PlusZero(Times(Count(anchors, asOf), Direct(trips, maxDist, bike, asOf, window)));
    if anchors != [] {
      AnchorsShareDailySums(trips, maxDist, anchors[1..], bike, asOf, window);
      DailySumsAreScans(trips, maxDist, bike, asOf - window, asOf, asOf - window / 2);
    }
  }

  lemma {:induction false} DistinctCountsOnce(anchors: seq<Day>, asOf: Day)
    requires forall i, j | 0 <= i < j < |anchors| :: anchors[i] != anchors[j]
    ensures Count(anchors, asOf) == if asOf in anchors then 1 else 0
    decreases |anchors|
  {
    if anchors != [] {
      DistinctCountsOnce(anchors[1..], asOf);
      assert anchors == [anchors[0]] + anchors[1..];
    }
  }

  /** So a listed anchor of a duplicate-free list gets exactly its direct scan. */
  lemma DistinctAnchorsAreExact(trips: seq<Trip>, maxDist: real, anchors: seq<Day>, bike: string, asOf: Day, window: nat)
    requires asOf in anchors && forall i, j | 0 <= i < j < |anchors| :: anchors[i] != anchors[j]
    ensures Joined(Daily(trips, maxDist), anchors, bike, asOf, window) == Direct(trips, maxDist, bike, asOf, window)
  {
    hide Plus, Direct, Daily, Joined;
    AnchorsShareDailySums(trips, maxDist, anchors, bike, asOf, window);
    DistinctCountsOnce(anchors, asOf);
    var direct := Direct(trips, maxDist, bike, asOf, window);
    PlusZero(direct);
    assert Times(1, direct) == Plus(direct, Times(0, direct));
  }

  // ---------------------------------------------------------------- serving

  function Filter(trips: seq<Trip>, keep: Trip -> bool): seq<Trip> {
    if trips == [] then []
    else
      var t, rest := trips[|trips| - 1], Filter(trips[..|trips| - 1], keep);
      if keep(t) then rest + [t] else rest
  }

  /** _rental_scan_row_filter: only the partitions of the window. */
  function WindowOnly(asOf: Day, window: nat): Trip -> bool {
    (t: Trip) => asOf - window <= t.day < asOf
  }

  /** _exclude_suspended_rental_days, for a set of suspended bike-days. */
  function NotSuspended(suspended: set<BikeDay>): Trip -> bool {
    (t: Trip) => BikeDay(t.bike, t.day) !in suspended
  }

  /** Two row-wise filters that agree inside the window give the same features. */
  lemma {:induction false} OnlyTheWindowMatters(
    trips: seq<Trip>, keep: Trip -> bool, keep': Trip -> bool, maxDist: real, bike: string, from: Day, until: Day, cut: Day)
    requires forall t | t in trips && InWindow(t, bike, from, until) :: keep(t) == keep'(t)
    ensures Scan(Filter(trips, keep), maxDist, bike, from, until, cut)
         == Scan(Filter(trips, keep'), maxDist, bike, from, until, cut)
    decreases |trips|
  {
    hide Plus, Contribution, OfDay, Scan;
    if trips != [] {
      var n, t := |trips| - 1, trips[|trips| - 1];
      OnlyTheWindowMatters(trips[..n], keep, keep', maxDist, bike, from, until, cut);
      ScanAppend(Filter(trips[..n], keep), t, maxDist, bike, from, until, cut);
      ScanAppend(Filter(trips[..n], keep'), t, maxDist, bike, from, until, cut);
      PlusZero(Scan(Filter(trips[..n], keep), maxDist, bike, from, until, cut));
    }
  }

  lemma ScanAppend(trips: seq<Trip>, t: Trip, maxDist: real, bike: string, from: Day, until: Day, cut: Day)
    ensures Scan(trips + [t], maxDist, bike, from, until, cut)
         == Plus(Scan(trips, maxDist, bike, from, until, cut), TripPart(t, maxDist, bike, from, until, cut))
  {
    hide Plus, TripPart;
    assert (trips + [t])[..|trips|] == trips;
  }

  lemma {:induction false} FilterTwice(trips: seq<Trip>, keep: Trip -> bool, keep': Trip -> bool)
    ensures Filter(Filter(trips, keep), keep') == Filter(trips, (t: Trip) => keep(t) && keep'(t))
    decreases |trips|
  {
    if trips != [] {
      var n := |trips| - 1;
      FilterTwice(trips[..n], keep, keep');
      var rest := Filter(trips[..n], keep);
      assert (rest + [trips[n]])[..|rest|] == rest;
    }
  }

  /** What serving aggregates: only the window's partitions, cleaned, without the suspended days of the
      window. */
  function Served(trips: seq<Trip>, clean: Trip -> bool, suspended: set<BikeDay>, asOf: Day, window: nat): seq<Trip> {
    var recent := set s | s in suspended && asOf - window <= s.day < asOf;
    Filter(Filter(Filter(trips, WindowOnly(asOf, window)), clean), NotSuspended(recent))
  }

  lemma {:induction false} FilterMember(trips: seq<Trip>, keep: Trip -> bool, t: Trip)
    ensures t in Filter(trips, keep) <==> t in trips && keep(t)
    decreases |trips|
  {
    if trips != [] {
      var n := |trips| - 1;
      FilterMember(trips[..n], keep, t);
      assert trips == trips[..n] + [trips[n]];
    }
  }

  /** Serving reads no trip outside the window's days, and drops only unclean ones and those of a day their
      bike was suspended. */
  lemma ServedTrips(trips: seq<Trip>, clean: Trip -> bool, suspended: set<BikeDay>, asOf: Day, window: nat, t: Trip)
    ensures t in Served(trips, clean, suspended, asOf, window)
       <==> t in trips && asOf - window <= t.day && t.day < asOf && clean(t) && BikeDay(t.bike, t.day) !in suspended
  {
    var recent := set s | s in suspended && asOf - window <= s.day < asOf;
    FilterMember(trips, WindowOnly(asOf, window), t);
    FilterMember(Filter(trips, WindowOnly(asOf, window)), clean, t);
    FilterMember(Filter(Filter(trips, WindowOnly(asOf, window)), clean), NotSuspended(recent), t);
    hide Filter;
  }

  /** What training aggregates: the whole history, cleaned. No suspended day is taken out. */
  function Trained(trips: seq<Trip>, clean: Trip -> bool): seq<Trip> {
    Filter(trips, clean)
  }

  lemma ServedIsOneFilter(
    trips: seq<Trip>, clean: Trip -> bool, suspended: set<BikeDay>, maxDist: real, bike: string, asOf: Day, window: nat)
    ensures Direct(Served(trips, clean, suspended, asOf, window), maxDist, bike, asOf, window)
         == Direct(Filter(trips, (t: Trip) => clean(t) && NotSuspended(suspended)(t)), maxDist, bike, asOf, window)
  {
    hide Scan, Filter;
    var recent := set s | s in suspended && asOf - window <= s.day < asOf;
    var inWindow := WindowOnly(asOf, window);
    var both := (t: Trip) => inWindow(t) && clean(t);
    var serves := (t: Trip) => both(t) && NotSuspended(recent)(t);
    FilterTwice(trips, inWindow, clean);
    FilterTwice(trips, both, NotSuspended(recent));
    assert Served(trips, clean, suspended, asOf, window) == Filter(trips, serves);
    OnlyTheWindowMatters(trips, serves, (t: Trip) => clean(t) && NotSuspended(suspended)(t), maxDist, bike,
                         asOf - window, asOf, asOf - window / 2);
  }

  /** The scan filter and the window's list of suspensions lose nothing: serving gives the features of
      the whole history without all the suspended days, at any anchor of any duplicate-free list. */
  lemma PrefilterChangesNothing(
    trips: seq<Trip>, clean: Trip -> bool, suspended: set<BikeDay>, maxDist: real,
    anchors: seq<Day>, bike: string, asOf: Day, window: nat)
    requires asOf in anchors && forall i, j | 0 <= i < j < |anchors| :: anchors[i] != anchors[j]
    ensures Joined(Daily(Served(trips, clean, suspended, asOf, window), maxDist), [asOf], bike, asOf, window)
         == Joined(Daily(Filter(Trained(trips, clean), NotSuspended(suspended)), maxDist), anchors, bike, asOf, window)
  {
    hide Joined, Daily, Direct, Served;
    var unsuspended := Filter(Trained(trips, clean), NotSuspended(suspended));
    DistinctAnchorsAreExact(Served(trips, clean, suspended, asOf, window), maxDist, [asOf], bike, asOf, window);
    DistinctAnchorsAreExact(unsuspended, maxDist, anchors, bike, asOf, window);
    ServedIsOneFilter(trips, clean, suspended, maxDist, bike, asOf, window);
    FilterTwice(trips, clean, NotSuspended(suspended));
  }

  /** A cleaned trip of the bike inside the window, on a day the bike was suspended. */
  ghost predicate RodeWhileSuspended(
    trips: seq<Trip>, clean: Trip -> bool, suspended: set<BikeDay>, bike: string, asOf: Day, window: nat)
  {
    exists t | t in trips && clean(t) && InWindow(t, bike, asOf - window, asOf) :: BikeDay(t.bike, t.day) in suspended
  }

  /** A stricter filter counts fewer trips, and strictly fewer when it takes one out of the window. */
  lemma {:induction false} StricterCountsFewer(
    trips: seq<Trip>, keep: Trip -> bool, strict: Trip -> bool, maxDist: real, bike: string, from: Day, until: Day, cut: Day)
    requires forall t | strict(t) :: keep(t)
    ensures var (loose, tight) := (Scan(Filter(trips, keep), maxDist, bike, from, until, cut).agg.trips,
                                   Scan(Filter(trips, strict), maxDist, bike, from, until, cut).agg.trips);
            && tight <= loose
            && ((exists t | t in trips && InWindow(t, bike, from, until) :: keep(t) && !strict(t)) ==> tight < loose)
    decreases |trips|
  {
    hide Scan;
    if trips != [] {
      var n, t := |trips| - 1, trips[|trips| - 1];
      StricterCountsFewer(trips[..n], keep, strict, maxDist, bike, from, until, cut);
      ScanAppend(Filter(trips[..n], keep), t, maxDist, bike, from, until, cut);
      ScanAppend(Filter(trips[..n], strict), t, maxDist, bike, from, until, cut);
      assert trips == trips[..n] + [t];
    }
  }

  /** Main result. Serving and training agree on a bike exactly when it has no cleaned trip inside the
      window on a day it was suspended: as soon as the exclusion takes out anything, the two differ. */
  lemma ServingEqualsTrainingIff(
    trips: seq<Trip>, clean: Trip -> bool, suspended: set<BikeDay>, maxDist: real,
    anchors: seq<Day>, bike: string, asOf: Day, window: nat)
    requires asOf in anchors && forall i, j | 0 <= i < j < |anchors| :: anchors[i] != anchors[j]
    ensures Joined(Daily(Served(trips, clean, suspended, asOf, window), maxDist), [asOf], bike, asOf, window)
         == Joined(Daily(Trained(trips, clean), maxDist), anchors, bike, asOf, window)
       <==> !RodeWhileSuspended(trips, clean, suspended, bike, asOf, window)
  {
    hide Joined, Daily, Served, Scan, Filter;
    DistinctAnchorsAreExact(Served(trips, clean, suspended, asOf, window), maxDist, [asOf], bike, asOf, window);
    DistinctAnchorsAreExact(Trained(trips, clean), maxDist, anchors, bike, asOf, window);
    ServedIsOneFilter(trips, clean, suspended, maxDist, bike, asOf, window);
    var serves := (t: Trip) => clean(t) && NotSuspended(suspended)(t);
    if RodeWhileSuspended(trips, clean, suspended, bike, asOf, window) {
      StricterCountsFewer(trips, clean, serves, maxDist, bike, asOf - window, asOf, asOf - window / 2);
    } else {
      OnlyTheWindowMatters(trips, serves, clean, maxDist, bike, asOf - window, asOf, asOf - window / 2);
    }
  }

  lemma OneRide(trip: Trip)
    requires InWindow(trip, "b", -4, 10)
    ensures Direct([trip], 10.0, "b", 10, 14).agg.trips == 1 && Direct([], 10.0, "b", 10, 14).agg.trips == 0
  {
    hide Plus;
    assert [trip][..0] == [];
    PlusZero(TripPart(trip, 10.0, "b", -4, 10, 3));
    assert Scan([trip], 10.0, "b", -4, 10, 3) == Plus(Scan([trip][..0], 10.0, "b", -4, 10, 3), TripPart(trip, 10.0, "b", -4, 10, 3));
  }

  /** One ride the day before, on a day the bike was suspended: training counts it, serving does not. */
  lemma SuspendedRideIsSkewed() returns (trips: seq<Trip>, clean: Trip -> bool, suspended: set<BikeDay>)
    ensures Joined(Daily(Trained(trips, clean), 10.0), [10], "b", 10, 14).agg.trips == 1
    ensures Joined(Daily(Served(trips, clean, suspended, 10, 14), 10.0), [10], "b", 10, 14).agg.trips == 0
  {
    hide Joined, Daily, Served, Direct;
    var trip := Trip("b", 9, None, None, None, None);
    clean := (t: Trip) => true;
    trips, suspended := [trip], {BikeDay("b", 9)};
    assert Filter(trips[..0], clean) == [];
    assert Filter(trips, clean) == [] + [trip];
    assert Trained(trips, clean) == [trip];
    OneRide(trip);
    assert Filter(trips, (t: Trip) => clean(t) && NotSuspended(suspended)(t)) == [];
    ServedIsOneFilter(trips, clean, suspended, 10.0, "b", 10, 14);
    DistinctAnchorsAreExact(Trained(trips, clean), 10.0, [10], "b", 10, 14);
    DistinctAnchorsAreExact(Served(trips, clean, suspended, 10, 14), 10.0, [10], "b", 10, 14);
  }

  /** The features are consistent with each other: the halves split the trips, and there is a last day,
      inside the window, exactly when there is a trip. */
  lemma {:induction false} HalvesSplitTheTrips(trips: seq<Trip>, maxDist: real, bike: string, from: Day, until: Day, cut: Day)
    ensures var u := Scan(trips, maxDist, bike, from, until, cut);
            && u.firstHalf + u.secondHalf == u.agg.trips && u.agg.instant <= u.agg.trips
            && (u.last.Some? <==> u.agg.trips > 0) && (u.last.Some? ==> from <= u.last.value < until)
    decreases |trips|
  {
    if trips != [] {
      HalvesSplitTheTrips(trips[..|trips| - 1], maxDist, bike, from, until, cut);
    }
  }
}
