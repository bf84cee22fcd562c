/** One daily run end to end: windows from the watermark, selection, promotion document, watermark
    update (ingestion/jobs/rental_history_snapshot_policy.py, promote_rental_history_raw.py,
    update_rental_history_confirmed_watermark.py). */
module DailyChain {
  import opened Basics
  import opened ManifestKey
  import opened SnapshotSelection
  import opened BronzeProtocol
  import opened BronzeJobs
  import P = Promotion

  // ---------------------------------------------------------------- windows

  function ConfirmedWindows(from: Day, last: Day): seq<Window>
    decreases last - from
  {
    if from > last then [] else [Window(from, HoursBelow(24), true, Confirmed)] + ConfirmedWindows(from + 1, last)
  }

  /** The last day of the confirmed backlog: yesterday, or the cap if that comes first. */
  function BacklogEnd(mark: Day, runDate: Day, maxDays: Option<int>): Day {
    if maxDays.None? then runDate - 1 else Min(runDate - 1, mark + maxDays.value)
  }

  function CurrentWindow(cutoff: int, t0: bool): seq<Window> {
    if HourOf(cutoff) == 0 then [] else [Window(DateOf(cutoff), HoursBelow(HourOf(cutoff)), t0, Current)]
  }

  function FinalWindows(cutoff: int, mark: Day, maxDays: Option<int>, t0: bool): seq<Window> {
    ConfirmedWindows(mark + 1, BacklogEnd(mark, DateOf(cutoff), maxDays)) + CurrentWindow(cutoff, t0)
  }

  lemma {:induction false} ConfirmedAppend(from: Day, last: Day)
    requires from <= last + 1
    ensures ConfirmedWindows(from, last + 1)
         == ConfirmedWindows(from, last) + [Window(last + 1, HoursBelow(24), true, Confirmed)]
    decreases last - from
  {
    if from <= last {
      ConfirmedAppend(from + 1, last);
    } else {
      assert ConfirmedWindows(from + 1, last + 1) == [];
    }
  }

  lemma {:induction false} ConfirmedMembers(from: Day, last: Day, w: Window)
    ensures w in ConfirmedWindows(from, last)
       <==> from <= w.day <= last && w == Window(w.day, HoursBelow(24), true, Confirmed)
    decreases last - from
  {
    if from <= last {
      ConfirmedMembers(from + 1, last, w);
    }
  }

  lemma {:induction false} ConfirmedAt(from: Day, last: Day, i: nat)
    requires i < |ConfirmedWindows(from, last)|
    ensures ConfirmedWindows(from, last)[i].day == from + i <= last
    decreases last - from
  {
    if i > 0 {
      ConfirmedAt(from + 1, last, i - 1);
    }
  }

  /** No day has two windows, so the commit's count check cannot fail on a shared day. */
  lemma WindowsAreInOrder(cutoff: int, mark: Day, maxDays: Option<int>, t0: bool, i: nat, j: nat)
    requires i < j < |FinalWindows(cutoff, mark, maxDays, t0)|
    ensures FinalWindows(cutoff, mark, maxDays, t0)[i].day < FinalWindows(cutoff, mark, maxDays, t0)[j].day
  {
    hide ConfirmedWindows, HoursBelow;
    var last := BacklogEnd(mark, DateOf(cutoff), maxDays);
    if i < |ConfirmedWindows(mark + 1, last)| {
      ConfirmedAt(mark + 1, last, i);
    }
    if j < |ConfirmedWindows(mark + 1, last)| {
      ConfirmedAt(mark + 1, last, j);
    }
  }

  method BuildFinalWindows(cutoff: int, mark: Day, maxDays: Option<int>, t0: bool) returns (windows: seq<Window>)
    ensures windows == FinalWindows(cutoff, mark, maxDays, t0)
  {
    var runDate := DateOf(cutoff);
    var start := mark + 1;
    var end := runDate - 1;
    if maxDays.Some? {
      var capped := mark + maxDays.value;
      if capped < end {
        end := capped;
      }
    }
    windows := [];
    var current := start;
    while current <= end
      invariant start <= current
      invariant start < current ==> current <= end + 1
      invariant windows == ConfirmedWindows(start, current - 1)
    {
      ConfirmedAppend(start, current - 1);
      windows := windows + [Window(current, HoursBelow(24), true, Confirmed)];
      current := current + 1;
    }
    assert ConfirmedWindows(start, current - 1) == ConfirmedWindows(start, end);
    var hours := HoursBelow(HourOf(cutoff));
    if hours != [] {
      windows := windows + [Window(runDate, hours, t0, Current)];
    }
  }

  // ---------------------------------------------------------------- the promotion document

  function EntryOf(e: SelectedEntry): Entry
    requires e.candidate.key.Key? && e.candidate.manifest.Some? && e.candidate.manifest.value.requested.Some?
  {
    Entry(Ordinal(e.candidate.key.date), e.candidate.manifest.value.requested.value)
  }

  ghost predicate Promotes(doc: Promotion, selected: seq<SelectedEntry>) {
    && |doc.entries| == |selected|
    && (forall i | 0 <= i < |selected| ::
          && selected[i].candidate.key.Key?
          && selected[i].candidate.manifest.Some? && selected[i].candidate.manifest.value.requested.Some?
          && doc.entries[i] == EntryOf(selected[i]))
    && doc.promoted == DaysOf(doc.entries)
  }

  /** One line of the selection document says what its manifest says. */
  ghost predicate Describes(line: P.Selected, c: Candidate) {
    && c.key.Key? && c.manifest.Some? && RealStamp(line.stamp)
    && c.manifest.value.targetDate == Some(line.date) && c.manifest.value.snapshotType == line.kind
    && c.manifest.value.payloadKey == line.payloadKey && c.manifest.value.observedAt == Some(InstantOf(line.stamp))
    && c.manifest.value.requested == Some(line.hours) && c.manifest.value.rows == line.rows
  }

  /** The selection document, built line by line from what was selected. */
  ghost predicate Describing(doc: P.Document, selected: seq<SelectedEntry>) {
    |doc.selected| == |selected| && forall i | 0 <= i < |selected| :: Describes(doc.selected[i], selected[i].candidate)
  }

  /** What the promotion writes for a selection document is a promotion of that selection. */
  lemma WrittenPromotes(
    all: seq<Candidate>, cutoff: int, windows: seq<Window>, enabled: bool, maxAge: int,
    outcomes: seq<Outcome>, selected: seq<SelectedEntry>, missing: seq<MissingEntry>, doc: P.Document)
    requires RightSelection(all, cutoff, windows, enabled, maxAge, outcomes, selected, missing)
    requires Describing(doc, selected)
    ensures Promotes(P.Written(doc), selected)
  {
    hide Right, ExpectedHours;
    forall i | 0 <= i < |selected| ensures P.Written(doc).entries[i] == EntryOf(selected[i]) {
      var e := selected[i];
      assert e in selected;
      SelectedFrom(Required(windows), outcomes, e);
      assert Right(all, cutoff, e.window, enabled, maxAge, Selected(e.candidate, e.fallbackReason));
      SelectedHours(all, cutoff, e.window, enabled, maxAge, e.candidate, e.fallbackReason);
      assert Describes(doc.selected[i], e.candidate);
    }
  }

  // ---------------------------------------------------------------- the chain

  lemma {:induction false} RequiredMembers(windows: seq<Window>, w: Window)
    ensures w in Required(windows) <==> w in windows && w.required
    decreases |windows|
  {
    if windows != [] {
      RequiredMembers(windows[1..], w);
      assert windows == [windows[0]] + windows[1..];
    }
  }

  lemma {:induction false} NothingMissing(windows: seq<Window>, outcomes: seq<Outcome>, i: nat)
    requires |windows| == |outcomes| && MissingOf(windows, outcomes) == [] && i < |windows|
    ensures |SelectedOf(windows, outcomes)| == |windows| && outcomes[i].Selected?
    ensures SelectedOf(windows, outcomes)[i] == SelectedEntry(windows[i], outcomes[i].candidate, outcomes[i].fallbackReason)
    decreases |windows|
  {
    var n := |windows| - 1;
    if 0 < n {
      NothingMissing(windows[..n], outcomes[..n], if i < n then i else 0);
    }
  }

  /** The days a promotion confirms: entry i comes from required window i, with that window's hours. */
  lemma EntryOfWindow(
    all: seq<Candidate>, cutoff: int, windows: seq<Window>, enabled: bool, maxAge: int,
    outcomes: seq<Outcome>, selected: seq<SelectedEntry>, doc: Promotion, i: nat)
    requires RightSelection(all, cutoff, windows, enabled, maxAge, outcomes, selected, [])
    requires Promotes(doc, selected) && i < |Required(windows)|
    ensures |doc.entries| == |Required(windows)| && doc.entries[i].day == Required(windows)[i].day
    ensures exists reference ::
      doc.entries[i].hours == ExpectedHours(Required(windows)[i].day, DateOf(cutoff), reference, Required(windows)[i].role)
  {
    hide Right, ExpectedHours;
    NothingMissing(Required(windows), outcomes, i);
    var w, o := Required(windows)[i], outcomes[i];
    SelectedHours(all, cutoff, w, enabled, maxAge, o.candidate, o.fallbackReason);
    var reference := o.candidate.key.observed;
    assert doc.entries[i].hours == ExpectedHours(w.day, DateOf(cutoff), reference, w.role);
  }

  lemma NoEntriesWithoutWindows(windows: seq<Window>, outcomes: seq<Outcome>, selected: seq<SelectedEntry>)
    requires |outcomes| == |windows| && selected == SelectedOf(windows, outcomes) && MissingOf(windows, outcomes) == []
    ensures |selected| == |windows|
  {
    if windows != [] {
      NothingMissing(windows, outcomes, 0);
    }
  }

  lemma BacklogIsConfirmed(
    all: seq<Candidate>, cutoff: int, mark: Day, maxDays: Option<int>, t0: bool, enabled: bool, maxAge: int,
    outcomes: seq<Outcome>, selected: seq<SelectedEntry>, doc: Promotion, d: Day)
    requires RightSelection(all, cutoff, FinalWindows(cutoff, mark, maxDays, t0), enabled, maxAge, outcomes, selected, [])
    requires Promotes(doc, selected)
    requires mark < d <= BacklogEnd(mark, DateOf(cutoff), maxDays)
    ensures d in FullDayPartitions(doc, DateOf(cutoff))
  {
    hide Right, ExpectedHours, RightSelection;
    var windows, runDate := FinalWindows(cutoff, mark, maxDays, t0), DateOf(cutoff);
    var required, w := Required(windows), Window(d, HoursBelow(24), true, Confirmed);
    ConfirmedMembers(mark + 1, BacklogEnd(mark, runDate, maxDays), w);
    RequiredMembers(windows, w);
    var i :| 0 <= i < |required| && required[i] == w;
    EntryOfWindow(all, cutoff, windows, enabled, maxAge, outcomes, selected, doc, i);
    FullHours(d, runDate, Confirmed);
    assert IsFull(doc.entries[i]) && doc.entries[i] in doc.entries;
  }

  lemma FullEntryIsBacklog(
    all: seq<Candidate>, cutoff: int, mark: Day, maxDays: Option<int>, t0: bool, enabled: bool, maxAge: int,
    outcomes: seq<Outcome>, selected: seq<SelectedEntry>, doc: Promotion, i: nat)
    requires RightSelection(all, cutoff, FinalWindows(cutoff, mark, maxDays, t0), enabled, maxAge, outcomes, selected, [])
    requires Promotes(doc, selected)
    requires i < |doc.entries| && doc.entries[i].day < DateOf(cutoff)
    ensures mark < doc.entries[i].day <= BacklogEnd(mark, DateOf(cutoff), maxDays)
  {
    hide Right, ExpectedHours;
    var windows, runDate := FinalWindows(cutoff, mark, maxDays, t0), DateOf(cutoff);
    var required := Required(windows);
    NoEntriesWithoutWindows(required, outcomes, selected);
    EntryOfWindow(all, cutoff, windows, enabled, maxAge, outcomes, selected, doc, i);
    RequiredMembers(windows, required[i]);
    ConfirmedMembers(mark + 1, BacklogEnd(mark, runDate, maxDays), required[i]);
    assert forall w | w in CurrentWindow(cutoff, t0) :: w.day == runDate;
  }

  lemma ConfirmedIsBacklog(
    all: seq<Candidate>, cutoff: int, mark: Day, maxDays: Option<int>, t0: bool, enabled: bool, maxAge: int,
    outcomes: seq<Outcome>, selected: seq<SelectedEntry>, doc: Promotion, d: Day)
    requires RightSelection(all, cutoff, FinalWindows(cutoff, mark, maxDays, t0), enabled, maxAge, outcomes, selected, [])
    requires Promotes(doc, selected)
    requires d in FullDayPartitions(doc, DateOf(cutoff))
    ensures mark < d <= BacklogEnd(mark, DateOf(cutoff), maxDays)
  {
    hide RightSelection, Promotes;
    var e :| e in doc.entries && e.day in doc.promoted && IsFull(e) && e.day < DateOf(cutoff) && e.day == d;
    var i :| 0 <= i < |doc.entries| && doc.entries[i] == e;
    FullEntryIsBacklog(all, cutoff, mark, maxDays, t0, enabled, maxAge, outcomes, selected, doc, i);
  }

  /** The confirmed candidates of a complete daily run are exactly the days of its backlog. */
  lemma CandidatesAreTheBacklog(
    all: seq<Candidate>, cutoff: int, mark: Day, maxDays: Option<int>, t0: bool, enabled: bool, maxAge: int,
    outcomes: seq<Outcome>, selected: seq<SelectedEntry>, doc: Promotion, d: Day)
    requires RightSelection(all, cutoff, FinalWindows(cutoff, mark, maxDays, t0), enabled, maxAge, outcomes, selected, [])
    requires Promotes(doc, selected)
    ensures d in FullDayPartitions(doc, DateOf(cutoff)) <==> mark < d <= BacklogEnd(mark, DateOf(cutoff), maxDays)
  {
    hide *;
    if d in FullDayPartitions(doc, DateOf(cutoff)) {
      ConfirmedIsBacklog(all, cutoff, mark, maxDays, t0, enabled, maxAge, outcomes, selected, doc, d);
    } else if mark < d <= BacklogEnd(mark, DateOf(cutoff), maxDays) {
      BacklogIsConfirmed(all, cutoff, mark, maxDays, t0, enabled, maxAge, outcomes, selected, doc, d);
    }
  }

  ghost predicate Rising(windows: seq<Window>) {
    forall i, j | 0 <= i < j < |windows| :: windows[i].day < windows[j].day
  }

  lemma {:induction false} RequiredRise(windows: seq<Window>)
    requires Rising(windows)
    ensures Rising(Required(windows))
    decreases |windows|
  {
    if windows != [] {
      var rest := Required(windows[1..]);
      RequiredRise(windows[1..]);
      forall j | 0 <= j < |rest| ensures windows[0].day < rest[j].day {
        RequiredMembers(windows[1..], rest[j]);
      }
    }
  }

  lemma WindowsRise(cutoff: int, mark: Day, maxDays: Option<int>, t0: bool)
    ensures Rising(FinalWindows(cutoff, mark, maxDays, t0))
  {
    hide FinalWindows;
    var windows := FinalWindows(cutoff, mark, maxDays, t0);
    forall i, j | 0 <= i < j < |windows| ensures windows[i].day < windows[j].day {
      WindowsAreInOrder(cutoff, mark, maxDays, t0, i, j);
    }
  }

  /** No two snapshots of a daily selection share a day, so its promotion never fails the count check
      after the commit. */
  lemma DailyDatesDiffer(
    all: seq<Candidate>, cutoff: int, mark: Day, maxDays: Option<int>, t0: bool, enabled: bool, maxAge: int,
    outcomes: seq<Outcome>, selected: seq<SelectedEntry>, doc: P.Document)
    requires RightSelection(all, cutoff, FinalWindows(cutoff, mark, maxDays, t0), enabled, maxAge, outcomes, selected, [])
    requires Describing(doc, selected)
    ensures P.DistinctDates(doc.selected)
  {
    hide *;
    var windows := FinalWindows(cutoff, mark, maxDays, t0);
    WindowsRise(cutoff, mark, maxDays, t0);
    RequiredRise(windows);
    WrittenPromotes(all, cutoff, windows, enabled, maxAge, outcomes, selected, [], doc);
    LinesMatchWindows(all, cutoff, windows, enabled, maxAge, outcomes, selected, doc);
    LinesRise(Required(windows), doc);
  }

  lemma LinesRise(required: seq<Window>, doc: P.Document)
    requires Rising(required) && LinesMatch(doc, required)
    ensures P.DistinctDates(doc.selected)
  {
    hide Ordinal;
  }

  /** The lines of a selection document are the required windows' days, in order. */
  ghost predicate LinesMatch(doc: P.Document, required: seq<Window>) {
    && |doc.selected| == |required|
    && (forall i | 0 <= i < |required| :: Ordinal(doc.selected[i].date) == required[i].day)
  }

  lemma LinesMatchWindows(
    all: seq<Candidate>, cutoff: int, windows: seq<Window>, enabled: bool, maxAge: int,
    outcomes: seq<Outcome>, selected: seq<SelectedEntry>, doc: P.Document)
    requires RightSelection(all, cutoff, windows, enabled, maxAge, outcomes, selected, [])
    requires Describing(doc, selected) && Promotes(P.Written(doc), selected)
    ensures LinesMatch(doc, Required(windows))
  {
    hide Right, ExpectedHours, Ordinal, Required;
    NoEntriesWithoutWindows(Required(windows), outcomes, selected);
    forall i | 0 <= i < |doc.selected| ensures Ordinal(doc.selected[i].date) == Required(windows)[i].day {
      EntryOfWindow(all, cutoff, windows, enabled, maxAge, outcomes, selected, P.Written(doc), i);
    }
  }

  lemma FullHours(day: Day, runDate: Day, role: Role)
    requires role == Confirmed
    ensures forall reference :: ExpectedHours(day, runDate, reference, role) == HoursBelow(24)
  {
  }

  /** Where a successful daily run leaves the watermark. */
  function Reached(mark: Day, runDate: Day, maxDays: Option<int>): Day {
    Max(mark, BacklogEnd(mark, runDate, maxDays))
  }

  /** Main result: when every required window found a snapshot and the selection was promoted, the
      update that reads the promotion's document moves the watermark to exactly min(W + m, R - 1) (R - 1
      when uncapped), and nowhere when that is not beyond W. */
  lemma DailyRunReaches(
    all: seq<Candidate>, cutoff: int, mark: Day, maxDays: Option<int>, t0: bool, enabled: bool, maxAge: int,
    outcomes: seq<Outcome>, selected: seq<SelectedEntry>, doc: P.Document)
    requires RightSelection(all, cutoff, FinalWindows(cutoff, mark, maxDays, t0), enabled, maxAge, outcomes, selected, [])
    requires Describing(doc, selected)
    ensures NextConfirmed(mark, FullDayPartitions(P.Written(doc), DateOf(cutoff)), DateOf(cutoff))
         == Reached(mark, DateOf(cutoff), maxDays)
    ensures mark < Reached(mark, DateOf(cutoff), maxDays) ==> Reached(mark, DateOf(cutoff), maxDays) < DateOf(cutoff)
  {
    var runDate := DateOf(cutoff);
    WrittenPromotes(all, cutoff, FinalWindows(cutoff, mark, maxDays, t0), enabled, maxAge, outcomes, selected, [], doc);
    var candidates := FullDayPartitions(P.Written(doc), runDate);
    hide FullDayPartitions, RightSelection, Promotes, Describing;
    forall d ensures d in candidates <==> mark < d <= BacklogEnd(mark, runDate, maxDays) {
      CandidatesAreTheBacklog(all, cutoff, mark, maxDays, t0, enabled, maxAge, outcomes, selected, P.Written(doc), d);
    }
    RunOfInterval(mark, BacklogEnd(mark, runDate, maxDays), candidates, runDate);
  }

  lemma {:induction false} RunOfInterval(mark: Day, end: Day, candidates: set<Day>, runDate: Day)
    requires end < runDate && forall d :: d in candidates <==> mark < d <= end
    ensures NextConfirmed(mark, candidates, runDate) == Max(mark, end)
  {
    NextConfirmedIsLongestRun(mark, candidates, runDate);
    LongestRunIsUnique(candidates, mark, runDate - 1, NextConfirmed(mark, candidates, runDate), Max(mark, end));
  }
}
