/** From collection to watermark: the collector and the selector compute their windows from the same
    cutoff, so what a run collected well is selected, promoted and confirmed
    (ingestion/jobs/collect_rental_history_raw.py, rental_history_snapshot_policy.py,
    promote_rental_history_raw.py, update_rental_history_confirmed_watermark.py). */
module CollectedRun {
  import opened Basics
  import opened ManifestKey
  import opened SnapshotSelection
  import opened RawCollection
  import opened DailyChain
  import B = BronzeProtocol
  import P = Promotion

  // ---------------------------------------------------------------- windows on both sides

  /** Every window of a FINAL run asks for the hours the selector of the same run expects. */
  lemma FinalHours(cutoff: int, mark: Day, maxDays: Option<int>, t0: bool, w: Window)
    requires w in FinalWindows(cutoff, mark, maxDays, t0)
    ensures w.hours == ExpectedHours(w.day, DateOf(cutoff), cutoff, w.role) == HoursBelow(|w.hours|)
    ensures w.role == Confirmed ==> w.day < DateOf(cutoff)
    ensures w.role == Current ==> w.day == DateOf(cutoff) && HourOf(cutoff) > 0
  {
    hide HoursBelow;
    ConfirmedMembers(mark + 1, BacklogEnd(mark, DateOf(cutoff), maxDays), w);
  }

  /** build_run_windows for a PRELIMINARY: all of the day before, and the finished hours of the day. */
  function PreliminaryWindows(cutoff: int): seq<Window> {
    [Window(DateOf(cutoff) - 1, HoursBelow(24), true, Confirmed)]
    + if HourOf(cutoff) == 0 then [] else [Window(DateOf(cutoff), HoursBelow(HourOf(cutoff)), true, Current)]
  }

  /** On one day, a PRELIMINARY's window asks for the hours the later selector expects of it. */
  lemma PreliminaryHours(observed: int, v: Window, cutoff: int, mark: Day, maxDays: Option<int>, t0: bool, w: Window)
    requires v in PreliminaryWindows(observed) && w in FinalWindows(cutoff, mark, maxDays, t0)
    requires v.day == w.day && DateOf(observed) == DateOf(cutoff)
    ensures v.hours == ExpectedHours(w.day, DateOf(cutoff), observed, w.role) != []
  {
    FinalHours(cutoff, mark, maxDays, t0, w);
    hide FinalWindows;
  }

  lemma PreliminaryIsPrefix(observed: int, v: Window)
    requires v in PreliminaryWindows(observed)
    ensures v.hours == HoursBelow(|v.hours|)
  {
    hide HoursBelow;
  }

  /** A PRELIMINARY collected at t for one of its own windows can stand in at a later FINAL cutoff exactly
      when it is fresh enough, COMPLETE and schema-valid. */
  lemma PreliminaryIsAdmissibleIff(
    date: Date, t: Stamp, v: Window, fetch: int -> HourResult, m: Manifest,
    cutoff: int, mark: Day, maxDays: Option<int>, t0: bool, w: Window, maxAge: int)
    requires RealDate(date) && RealStamp(t) && v in PreliminaryWindows(InstantOf(t))
    requires w in FinalWindows(cutoff, mark, maxDays, t0) && v.day == w.day == Ordinal(date)
    requires m == Collection(date, t, PRELIMINARY, v.hours, fetch)
    ensures Admissible(Offered(date, t, PRELIMINARY, m), cutoff, w, maxAge)
       <==> FreshEnough(InstantOf(t), cutoff, maxAge) && m.status == CompleteSnapshot && m.schemaValid == Some(true)
  {
    hide ParseManifestKey, SnapshotKeys, ValidateManifest, Collection, InstantOf, FinalWindows, PreliminaryWindows, Ordinal,
         HoursBelow, ExpectedHours;
    KeyRoundTrip(date, t, PRELIMINARY);
    PreliminaryIsPrefix(InstantOf(t), v);
    CollectedIsValidIff(date, t, PRELIMINARY, |v.hours|, fetch);
    if FreshEnough(InstantOf(t), cutoff, maxAge) {
      PreliminaryHours(InstantOf(t), v, cutoff, mark, maxDays, t0, w);
    }
  }

  /** Where fallback is allowed, such a PRELIMINARY keeps its window from going missing. */
  lemma FallbackIsFound(
    date: Date, t: Stamp, v: Window, fetch: int -> HourResult, m: Manifest, all: seq<Candidate>,
    cutoff: int, mark: Day, maxDays: Option<int>, t0: bool, w: Window, enabled: bool, maxAge: int, o: SnapshotSelection.Outcome)
    requires RealDate(date) && RealStamp(t) && v in PreliminaryWindows(InstantOf(t))
    requires w in FinalWindows(cutoff, mark, maxDays, t0) && v.day == w.day == Ordinal(date)
    requires m == Collection(date, t, PRELIMINARY, v.hours, fetch) && Offered(date, t, PRELIMINARY, m) in all
    requires m.status == CompleteSnapshot && m.schemaValid == Some(true)
    requires FreshEnough(InstantOf(t), cutoff, maxAge) && MayFallBack(w, cutoff, enabled)
    requires Right(all, cutoff, w, enabled, maxAge, o)
    ensures o.Selected?
  {
    PreliminaryIsAdmissibleIff(date, t, v, fetch, m, cutoff, mark, maxDays, t0, w, maxAge);
  }

  // ---------------------------------------------------------------- the run's own FINALs

  /** The manifest of this run's FINAL for the window is stored, COMPLETE, schema-valid and for its hours:
      what the collector leaves, or reuses, when the window's collection succeeded. */
  ghost predicate CollectedOn(date: Date, w: Window, t: Stamp, manifests: map<string, Manifest>)
    requires RealStamp(t)
  {
    RealDate(date) && Ordinal(date) == w.day && Reuses(date, w.hours, t, FINAL, manifests)
  }

  ghost predicate AllCollected(windows: seq<Window>, t: Stamp, manifests: map<string, Manifest>)
    requires RealStamp(t)
  {
    forall w | w in windows && w.required :: exists date :: CollectedOn(date, w, t, manifests)
  }

  function Own(date: Date, t: Stamp, manifests: map<string, Manifest>): Candidate
    requires RealDate(date) && RealStamp(t) && SnapshotKeys(date, t, FINAL).1 in manifests
  {
    Offered(date, t, FINAL, manifests[SnapshotKeys(date, t, FINAL).1])
  }

  /** Every required window's own FINAL is among the candidates. */
  ghost predicate OwnAreListed(all: seq<Candidate>, windows: seq<Window>, t: Stamp, manifests: map<string, Manifest>)
    requires RealStamp(t)
  {
    forall w, date | w in windows && w.required && CollectedOn(date, w, t, manifests) :: Own(date, t, manifests) in all
  }

  lemma BackedIsWritten(date: Date, t: Stamp, payloads: map<string, seq<Row>>, manifests: map<string, Manifest>)
    requires RealDate(date) && RealStamp(t) && AllBacked(payloads, manifests)
    requires SnapshotKeys(date, t, FINAL).1 in manifests
    ensures Backed(payloads, manifests, date, t, FINAL)
    ensures WrittenHere(manifests[SnapshotKeys(date, t, FINAL).1], date, t, FINAL)
  {
    hide SnapshotKeys, BuildManifest;
    assert Backed(payloads, manifests, date, t, FINAL);
  }

  /** A window of the run that was collected well is selected from that very collection, whatever else is
      listed. */
  lemma CollectedFinalIsSelected(
    date: Date, t: Stamp, w: Window, mark: Day, maxDays: Option<int>, t0: bool,
    payloads: map<string, seq<Row>>, manifests: map<string, Manifest>, all: seq<Candidate>,
    enabled: bool, maxAge: int, o: SnapshotSelection.Outcome)
    requires RealStamp(t) && w in FinalWindows(InstantOf(t), mark, maxDays, t0)
    requires CollectedOn(date, w, t, manifests) && AllBacked(payloads, manifests)
    requires Own(date, t, manifests) in all && DistinctInstants(all)
    requires Right(all, InstantOf(t), w, enabled, maxAge, o)
    ensures o == Selected(Own(date, t, manifests), None)
  {
    hide SnapshotKeys, Right, DistinctInstants, FinalWindows, ExpectedHours, AllBacked, WrittenHere;
    FinalHours(InstantOf(t), mark, maxDays, t0, w);
    BackedIsWritten(date, t, payloads, manifests);
    StoredFinalIsSelected(date, t, manifests[SnapshotKeys(date, t, FINAL).1], w.hours, all, w, enabled, maxAge, o);
  }

  // ---------------------------------------------------------------- candidates as they are listed

  /** The listing of a day holds both objects of every snapshot stored for it. */
  ghost predicate Lists(listing: Day -> seq<string>, date: Date, t: Stamp)
    requires RealDate(date) && RealStamp(t)
  {
    SnapshotKeys(date, t, FINAL).0 in listing(Ordinal(date)) && SnapshotKeys(date, t, FINAL).1 in listing(Ordinal(date))
  }

  /** A listed FINAL becomes the candidate that names its own manifest. */
  lemma ListedIsOffered(
    dates: seq<Day>, listing: Day -> seq<string>, date: Date, t: Stamp, manifests: map<string, Manifest>)
    requires RealDate(date) && RealStamp(t) && Ordinal(date) in dates && Lists(listing, date, t)
    requires SnapshotKeys(date, t, FINAL).1 in manifests
    ensures Own(date, t, manifests) in CandidatesUnder(dates, listing, manifests)
  {
    PayloadIsBesideManifest(date, t, FINAL);
    hide SnapshotKeys, ParseManifestKey, IsManifestKey, PayloadBeside, Ordinal;
    var key, listed := SnapshotKeys(date, t, FINAL).1, listing(Ordinal(date));
    assert CandidateOf(key, listed, manifests) == Own(date, t, manifests);
    assert Listed(Own(date, t, manifests), listed, manifests);
    var i :| 0 <= i < |dates| && dates[i] == Ordinal(date);
    UnderADate(dates, listing, manifests, Own(date, t, manifests));
  }

  /** Everything listed under a day was written by a collection of that day. */
  ghost predicate OnlyCollected(dates: seq<Day>, listing: Day -> seq<string>) {
    forall i, key | 0 <= i < |dates| && key in listing(dates[i]) && IsManifestKey(key) :: CollectedKey(key, dates[i])
  }

  ghost predicate CollectedKey(key: string, day: Day) {
    exists date, t, kind :: PrintedFrom(key, day, date, t, kind)
  }

  ghost predicate PrintedFrom(key: string, day: Day, date: Date, t: Stamp, kind: string) {
    RealDate(date) && RealStamp(t) && KindText(kind) && Ordinal(date) == day && key == SnapshotKeys(date, t, kind).1
  }

  lemma SameSnapshotSameKey(key: string, day: Day, key': string, day': Day)
    requires CollectedKey(key, day) && CollectedKey(key', day')
    requires ParseManifestKey(key).Key? && ParseManifestKey(key').Key?
    requires ParseManifestKey(key).date == ParseManifestKey(key').date
    requires ParseManifestKey(key).observed == ParseManifestKey(key').observed
    requires ParseManifestKey(key).kind == ParseManifestKey(key').kind
    ensures key == key' && day == day'
  {
    var date, t, kind :| PrintedFrom(key, day, date, t, kind);
    var date', t', kind' :| PrintedFrom(key', day', date', t', kind');
    KeyRoundTrip(date, t, kind);
    KeyRoundTrip(date', t', kind');
    hide ParseManifestKey, SnapshotKeys, KindText, InstantOf, Ordinal;
    InstantIsInjective(t, t');
  }

  /** So the candidates of a run are distinct snapshots. */
  lemma ListedAreDistinct(dates: seq<Day>, listing: Day -> seq<string>, manifests: map<string, Manifest>)
    requires OnlyCollected(dates, listing)
    ensures DistinctInstants(CandidatesUnder(dates, listing, manifests))
  {
    hide ParseManifestKey, IsManifestKey, PayloadBeside, CollectedKey, CandidatesUnder;
    var all := CandidatesUnder(dates, listing, manifests);
    forall c, d | c in all && d in all && c.key.Key? && d.key.Key?
                  && c.key.kind == d.key.kind && c.key.date == d.key.date && c.key.observed == d.key.observed
      ensures c == d
    {
      UnderADate(dates, listing, manifests, c);
      UnderADate(dates, listing, manifests, d);
      var i :| 0 <= i < |dates| && Listed(c, listing(dates[i]), manifests);
      var j :| 0 <= j < |dates| && Listed(d, listing(dates[j]), manifests);
      var key :| key in listing(dates[i]) && IsManifestKey(key) && c == CandidateOf(key, listing(dates[i]), manifests);
      var key' :| key' in listing(dates[j]) && IsManifestKey(key') && d == CandidateOf(key', listing(dates[j]), manifests);
      SameSnapshotSameKey(key, dates[i], key', dates[j]);
    }
  }

  // ---------------------------------------------------------------- the whole run

  /** The selected entry i is required window i's own collection. */
  ghost predicate OwnSelected(required: seq<Window>, outcomes: seq<Outcome>, i: nat, t: Stamp, manifests: map<string, Manifest>)
    requires RealStamp(t) && i < |required| == |outcomes|
  {
    exists date :: CollectedOn(date, required[i], t, manifests) && outcomes[i] == Selected(Own(date, t, manifests), None)
  }

  lemma OwnOutcome(
    all: seq<Candidate>, t: Stamp, mark: Day, maxDays: Option<int>, t0: bool, enabled: bool, maxAge: int,
    payloads: map<string, seq<Row>>, manifests: map<string, Manifest>,
    outcomes: seq<Outcome>, selected: seq<SelectedEntry>, missing: seq<MissingEntry>, i: nat)
    requires RealStamp(t) && AllBacked(payloads, manifests) && DistinctInstants(all)
    requires AllCollected(FinalWindows(InstantOf(t), mark, maxDays, t0), t, manifests)
    requires OwnAreListed(all, FinalWindows(InstantOf(t), mark, maxDays, t0), t, manifests)
    requires RightSelection(all, InstantOf(t), FinalWindows(InstantOf(t), mark, maxDays, t0), enabled, maxAge, outcomes, selected, missing)
    requires i < |Required(FinalWindows(InstantOf(t), mark, maxDays, t0))|
    ensures |outcomes| == |Required(FinalWindows(InstantOf(t), mark, maxDays, t0))|
    ensures OwnSelected(Required(FinalWindows(InstantOf(t), mark, maxDays, t0)), outcomes, i, t, manifests)
  {
    hide Right, FinalWindows, AllBacked, DistinctInstants, InstantOf, Required, CollectedOn;
    var windows := FinalWindows(InstantOf(t), mark, maxDays, t0);
    var w := Required(windows)[i];
    RequiredMembers(windows, w);
    var date :| CollectedOn(date, w, t, manifests);
    CollectedFinalIsSelected(date, t, w, mark, maxDays, t0, payloads, manifests, all, enabled, maxAge, outcomes[i]);
  }

  lemma {:induction false} NothingAbsent(windows: seq<Window>, outcomes: seq<Outcome>)
    requires |windows| == |outcomes| && forall o | o in outcomes :: o.Selected?
    ensures MissingOf(windows, outcomes) == []
    decreases |windows|
  {
    if windows != [] {
      var n := |windows| - 1;
      NothingAbsent(windows[..n], outcomes[..n]);
      assert outcomes[n] in outcomes;
    }
  }

  /** A line that describes a run's own collection is a valid entry, and its payload is in order. */
  lemma OwnLineIsReady(
    line: P.Selected, date: Date, w: Window, t: Stamp, payloads: map<string, seq<Row>>, manifests: map<string, Manifest>)
    requires RealStamp(t) && AllBacked(payloads, manifests) && CollectedOn(date, w, t, manifests)
    requires Describes(line, Own(date, t, manifests))
    ensures P.ValidEntry(line) && P.Ready(line, payloads)
  {
    BackedIsWritten(date, t, payloads, manifests);
    hide AllBacked, SnapshotKeys, ParseManifestKey, InstantOf;
    InstantIsInjective(line.stamp, t);
  }

  lemma LineIsReady(
    required: seq<Window>, outcomes: seq<Outcome>, selected: seq<SelectedEntry>, doc: P.Document, i: nat,
    t: Stamp, payloads: map<string, seq<Row>>, manifests: map<string, Manifest>)
    requires RealStamp(t) && AllBacked(payloads, manifests) && i < |required| == |outcomes|
    requires OwnSelected(required, outcomes, i, t, manifests) && MissingOf(required, outcomes) == []
    requires selected == SelectedOf(required, outcomes) && Describing(doc, selected)
    ensures i < |doc.selected| && P.ValidEntry(doc.selected[i]) && P.Ready(doc.selected[i], payloads)
  {
    hide AllBacked, Own, Describes, SelectedOf, MissingOf, SnapshotKeys, Reusable, Ordinal, P.ValidEntry, P.Ready;
    NothingMissing(required, outcomes, i);
    var date :| CollectedOn(date, required[i], t, manifests) && outcomes[i] == Selected(Own(date, t, manifests), None);
    OwnLineIsReady(doc.selected[i], date, required[i], t, payloads, manifests);
  }

  /** When every required window was collected well, none is missing, and every line of the document is
      in order. */
  lemma CollectedRunIsPromotable(
    all: seq<Candidate>, t: Stamp, mark: Day, maxDays: Option<int>, t0: bool, enabled: bool, maxAge: int,
    payloads: map<string, seq<Row>>, manifests: map<string, Manifest>,
    outcomes: seq<Outcome>, selected: seq<SelectedEntry>, missing: seq<MissingEntry>, doc: P.Document)
    requires RealStamp(t) && AllBacked(payloads, manifests) && DistinctInstants(all)
    requires AllCollected(FinalWindows(InstantOf(t), mark, maxDays, t0), t, manifests)
    requires OwnAreListed(all, FinalWindows(InstantOf(t), mark, maxDays, t0), t, manifests)
    requires RightSelection(all, InstantOf(t), FinalWindows(InstantOf(t), mark, maxDays, t0), enabled, maxAge, outcomes, selected, missing)
    requires Describing(doc, selected) && doc.ownDataset
    ensures missing == [] && P.Promotable(doc, doc.promotionId, payloads)
  {
    hide Right, FinalWindows, AllBacked, DistinctInstants, InstantOf, Required, OwnSelected, SelectedOf, MissingOf, Describes,
         AllCollected, OwnAreListed, P.ValidEntry, P.Ready, P.DistinctDates;
    var required := Required(FinalWindows(InstantOf(t), mark, maxDays, t0));
    forall i | 0 <= i < |required| ensures outcomes[i].Selected? && OwnSelected(required, outcomes, i, t, manifests) {
      OwnOutcome(all, t, mark, maxDays, t0, enabled, maxAge, payloads, manifests, outcomes, selected, missing, i);
      SelectedIfOwn(required, outcomes, i, t, manifests);
    }
    NothingAbsent(required, outcomes);
    NoEntriesWithoutWindows(required, outcomes, selected);
    forall i | 0 <= i < |doc.selected| ensures P.ValidEntry(doc.selected[i]) && P.Ready(doc.selected[i], payloads) {
      LineIsReady(required, outcomes, selected, doc, i, t, payloads, manifests);
    }
    DailyDatesDiffer(all, InstantOf(t), mark, maxDays, t0, enabled, maxAge, outcomes, selected, doc);
  }

  lemma SelectedIfOwn(required: seq<Window>, outcomes: seq<Outcome>, i: nat, t: Stamp, manifests: map<string, Manifest>)
    requires RealStamp(t) && i < |required| == |outcomes| && OwnSelected(required, outcomes, i, t, manifests)
    ensures outcomes[i].Selected?
  {
  }

  /** Both objects of every collected required window are listed under its day, and its day is asked for. */
  ghost predicate AllListed(windows: seq<Window>, t: Stamp, dates: seq<Day>, listing: Day -> seq<string>, manifests: map<string, Manifest>)
    requires RealStamp(t)
  {
    forall w, date | w in windows && w.required && CollectedOn(date, w, t, manifests) ::
      w.day in dates && Lists(listing, date, t)
  }

  /** Main result, from the collections to the watermark: when each required window of the run was
      collected well, whatever else lies in the raw store, the candidates read from it give a selection
      without missing entries, its promotion succeeds, and the update that reads the promotion moves the
      watermark W to exactly min(W + m, R - 1), or R - 1 uncapped. */
  lemma CollectedRunReaches(
    t: Stamp, mark: Day, maxDays: Option<int>, t0: bool, enabled: bool, maxAge: int,
    dates: seq<Day>, listing: Day -> seq<string>, payloads: map<string, seq<Row>>, manifests: map<string, Manifest>,
    outcomes: seq<Outcome>, selected: seq<SelectedEntry>, missing: seq<MissingEntry>, doc: P.Document)
    requires RealStamp(t) && AllBacked(payloads, manifests) && OnlyCollected(dates, listing)
    requires AllCollected(FinalWindows(InstantOf(t), mark, maxDays, t0), t, manifests)
    requires AllListed(FinalWindows(InstantOf(t), mark, maxDays, t0), t, dates, listing, manifests)
    requires RightSelection(CandidatesUnder(dates, listing, manifests), InstantOf(t),
                            FinalWindows(InstantOf(t), mark, maxDays, t0), enabled, maxAge, outcomes, selected, missing)
    requires Describing(doc, selected) && doc.ownDataset
    ensures missing == [] && P.Promotable(doc, doc.promotionId, payloads)
    ensures B.NextConfirmed(mark, B.FullDayPartitions(P.Written(doc), DateOf(InstantOf(t))), DateOf(InstantOf(t)))
         == Reached(mark, DateOf(InstantOf(t)), maxDays)
  {
    hide AllBacked, OnlyCollected, AllCollected, RightSelection, Describing, DistinctInstants, InstantOf, CandidatesUnder,
         FinalWindows, P.Promotable, B.FullDayPartitions, B.NextConfirmed, Reached, Lists, P.Written;
    var windows, all := FinalWindows(InstantOf(t), mark, maxDays, t0), CandidatesUnder(dates, listing, manifests);
    ListedAreDistinct(dates, listing, manifests);
    forall w, date | w in windows && w.required && CollectedOn(date, w, t, manifests)
      ensures Own(date, t, manifests) in all
    {
      ListedIsOffered(dates, listing, date, t, manifests);
    }
    CollectedRunIsPromotable(all, t, mark, maxDays, t0, enabled, maxAge, payloads, manifests, outcomes, selected, missing, doc);
    DailyRunReaches(all, InstantOf(t), mark, maxDays, t0, enabled, maxAge, outcomes, selected, doc);
  }
}
