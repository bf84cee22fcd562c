/** What a collected snapshot holds, hour by hour and page by page, and what the manual approval of an
    empty day makes of it (ingestion/jobs/collect_rental_history_raw.py, confirm_rental_history_empty.py). */
module CollectionMeaning {
  import opened Basics
  import opened ManifestKey
  import S = SnapshotSelection
  import opened RawCollection
  import B = BronzeJobs

  // ---------------------------------------------------------------- the rows

  /** Flattening keeps every page whole and in its place. */
  lemma {:induction false} FlattenJoins(front: seq<seq<Row>>, page: seq<Row>, back: seq<seq<Row>>)
    ensures Flatten(front + [page] + back) == Flatten(front) + page + Flatten(back)
    decreases |back|
  {
    if back == [] {
      assert front + [page] + back == front + [page];
      assert (front + [page])[..|front|] == front;
    } else {
      var n := |back| - 1;
      var all := front + [page] + back;
      assert all[..|all| - 1] == front + [page] + back[..n] && all[|all| - 1] == back[n];
      FlattenJoins(front, page, back[..n]);
    }
  }

  /** The pages of the hours in the order of the hours. */
  function AllPages(hours: seq<int>, fetch: int -> HourResult): seq<seq<Row>> {
    if hours == [] then [] else fetch(hours[0]).pages + AllPages(hours[1..], fetch)
  }

  lemma {:induction false} FlattenAppends(a: seq<seq<Row>>, b: seq<seq<Row>>)
    ensures Flatten(a + b) == Flatten(a) + Flatten(b)
    decreases |b|
  {
    if b == [] {
      assert a + b == a;
    } else {
      var n := |b| - 1;
      assert (a + b)[..|a + b| - 1] == a + b[..n] && (a + b)[|a + b| - 1] == b[n];
      FlattenAppends(a, b[..n]);
    }
  }

  lemma {:induction false} PagesAppend(hours: seq<int>, h: int, fetch: int -> HourResult)
    ensures AllPages(hours + [h], fetch) == AllPages(hours, fetch) + fetch(h).pages
    decreases |hours|
  {
    if hours == [] {
      assert AllPages([h][1..], fetch) == [];
    } else {
      assert (hours + [h])[1..] == hours[1..] + [h];
      PagesAppend(hours[1..], h, fetch);
    }
  }

  /** The payload is every page of every requested hour, hours in order, pages in order, also those of an
      hour that failed later; the counts and the completed hours say the same. */
  lemma {:induction false} RowsAreAllPages(hours: seq<int>, fetch: int -> HourResult)
    ensures Sequentially(hours, fetch).rows == Flatten(AllPages(hours, fetch))
    ensures Sequentially(hours, fetch).pages == |AllPages(hours, fetch)|
    ensures forall h :: h in Sequentially(hours, fetch).completed <==> h in hours && fetch(h).error.None?
    ensures Sequentially(hours, fetch).errors == [] <==> forall h | h in hours :: fetch(h).error.None?
    decreases |hours|
  {
    if hours != [] {
      var n := |hours| - 1;
      RowsAreAllPages(hours[..n], fetch);
      assert hours == hours[..n] + [hours[n]];
      PagesAppend(hours[..n], hours[n], fetch);
      FlattenAppends(AllPages(hours[..n], fetch), fetch(hours[n]).pages);
    }
  }

  lemma {:induction false} NoRowsInPages(pages: seq<seq<Row>>)
    ensures Flatten(pages) == [] <==> forall p | p in pages :: p == []
    decreases |pages|
  {
    if pages != [] {
      var front, last := pages[..|pages| - 1], pages[|pages| - 1];
      NoRowsInPages(front);
      assert pages == front + [last];
      assert forall p :: p in pages <==> p in front || p == last;
      assert Flatten(pages) == Flatten(front) + last;
      if Flatten(pages) == [] {
        assert |Flatten(front) + last| == 0;
        assert Flatten(front) == [] && last == [];
      }
      if forall p | p in pages :: p == [] {
        assert last in pages;
      }
    }
  }

  lemma {:induction false} PageOfAnHour(hours: seq<int>, fetch: int -> HourResult, p: seq<Row>)
    ensures p in AllPages(hours, fetch) <==> exists h :: h in hours && p in fetch(h).pages
    decreases |hours|
  {
    if hours != [] {
      var first, rest := hours[0], hours[1..];
      PageOfAnHour(rest, fetch, p);
      assert hours == [first] + rest;
      assert forall h :: h in hours <==> h == first || h in rest;
      if p in AllPages(rest, fetch) {
        var h :| h in rest && p in fetch(h).pages;
        assert h in hours;
      }
    }
  }

  /** Nothing came back: no hour failed and no page of any hour has a row. */
  ghost predicate NothingReturned(hours: seq<int>, fetch: int -> HourResult) {
    forall h | h in hours :: fetch(h).error.None? && forall p | p in fetch(h).pages :: p == []
  }

  lemma NothingReturnedIff(hours: seq<int>, fetch: int -> HourResult)
    ensures NothingReturned(hours, fetch)
       <==> Sequentially(hours, fetch).errors == [] && Sequentially(hours, fetch).rows == []
  {
    RowsAreAllPages(hours, fetch);
    NoRowsInPages(AllPages(hours, fetch));
    hide Sequentially, Flatten, AllPages;
    if NothingReturned(hours, fetch) {
      forall p | p in AllPages(hours, fetch) ensures p == [] {
        PageOfAnHour(hours, fetch, p);
      }
    } else if Sequentially(hours, fetch).errors == [] {
      var h :| h in hours && !(fetch(h).error.None? && forall p | p in fetch(h).pages :: p == []);
      var p :| p in fetch(h).pages && p != [];
      PageOfAnHour(hours, fetch, p);
    }
  }

  /** What the status of a collection says about the requests: INCOMPLETE exactly when some hour failed,
      COMPLETE_EMPTY exactly when none failed and none returned a row, COMPLETE otherwise. */
  lemma StatusMeans(date: Date, t: Stamp, kind: string, n: nat, fetch: int -> HourResult)
    requires RealDate(date) && RealStamp(t)
    ensures var m := Collection(date, t, kind, HoursBelow(n), fetch);
            && (m.status == S.IncompleteSnapshot <==> exists h :: h in HoursBelow(n) && fetch(h).error.Some?)
            && (m.status == S.CompleteEmpty <==> NothingReturned(HoursBelow(n), fetch))
            && (m.status == S.CompleteSnapshot || m.status == S.CompleteEmpty || m.status == S.IncompleteSnapshot)
            && m.rows == Some(|Flatten(AllPages(HoursBelow(n), fetch))|)
  {
    hide SnapshotKeys, Sequentially, Flatten, AllPages, SortedKeys, NothingReturned, HoursBelow;
    SortedStaysSorted(HoursBelow(n));
    RowsAreAllPages(HoursBelow(n), fetch);
    NothingReturnedIff(HoursBelow(n), fetch);
  }

  // ---------------------------------------------------------------- as the approval reads it

  function StatusText(status: S.SnapshotStatus): string {
    match status
    case CompleteSnapshot => "COMPLETE"
    case CompleteEmpty => "COMPLETE_EMPTY"
    case IncompleteSnapshot => "INCOMPLETE"
    case UnknownStatus => ""
  }

  /** The same document through the eyes of the approval, beside its payload. */
  function AsRead(date: Date, t: Stamp, kind: string, hours: seq<int>, c: Collected): B.Manifest
    requires RealDate(date) && RealStamp(t)
  {
    var m := BuildManifest(date, t, kind, hours, c);
    B.Manifest(StatusText(m.status), "rental_history", Ordinal(date), hours, c.completed, m.rows,
               c.errors != [] || m.schemaValid == Some(false), Some(S.DateOf(InstantOf(t))), c.rows == [])
  }

  /** How a collection reads: with data it holds data and is no evidence; it is evidence exactly when no
      hour failed, all were asked for, nothing came back and the day was over. */
  lemma ReadsAs(date: Date, t: Stamp, kind: string, hours: seq<int>, c: Collected)
    requires RealDate(date) && RealStamp(t) && (c.errors == [] ==> c.completed == hours)
    ensures c.errors == [] && c.rows != [] ==> B.HoldsData(AsRead(date, t, kind, hours, c))
    ensures B.EmptyEvidence(AsRead(date, t, kind, hours, c), Ordinal(date))
       <==> c.errors == [] && c.rows == [] && hours == HoursBelow(24) && Ordinal(date) < Ordinal(t.date)
  {
    DateOfStamp(t);
    hide SnapshotKeys, Ordinal, HoursBelow, InstantOf;
  }

  /** A collection with data, whatever was listed before or after it, blocks the approval of its day. */
  lemma DataBlocksApproval(
    date: Date, t: Stamp, kind: string, n: nat, fetch: int -> HourResult, manifests: seq<(string, B.Manifest)>, i: nat)
    requires RealDate(date) && RealStamp(t) && i < |manifests|
    requires (forall h | h in HoursBelow(n) :: fetch(h).error.None?) && !NothingReturned(HoursBelow(n), fetch)
    requires manifests[i].1 == AsRead(date, t, kind, HoursBelow(n), Sequentially(HoursBelow(n), fetch))
    ensures !(B.EmptyEvidence(manifests[0].1, Ordinal(date)) && forall j | 1 <= j < |manifests| :: !B.HoldsData(manifests[j].1))
  {
    hide *;
    var c := Sequentially(HoursBelow(n), fetch);
    NothingReturnedIff(HoursBelow(n), fetch);
    RowsAreAllPages(HoursBelow(n), fetch);
    CompleteMeansEveryHour(HoursBelow(n), fetch);
    ReadsAs(date, t, kind, HoursBelow(n), c);
    assert manifests[i].1 == AsRead(date, t, kind, HoursBelow(n), c);
  }

  /** A whole day's collection is evidence of an empty day exactly when nothing came back and it was made
      after that day had ended. */
  lemma EvidenceIff(date: Date, t: Stamp, kind: string, fetch: int -> HourResult)
    requires RealDate(date) && RealStamp(t)
    ensures B.EmptyEvidence(AsRead(date, t, kind, HoursBelow(24), Sequentially(HoursBelow(24), fetch)), Ordinal(date))
       <==> NothingReturned(HoursBelow(24), fetch) && Ordinal(date) < Ordinal(t.date)
  {
    hide *;
    var c := Sequentially(HoursBelow(24), fetch);
    NothingReturnedIff(HoursBelow(24), fetch);
    if c.errors == [] {
      CompleteMeansEveryHour(HoursBelow(24), fetch);
    }
    ReadsAs(date, t, kind, HoursBelow(24), c);
  }

  lemma DateOfStamp(t: Stamp)
    requires RealStamp(t)
    ensures S.DateOf(InstantOf(t)) == Ordinal(t.date)
  {
    hide Ordinal;
    SameDayAndSecond(S.DateOf(InstantOf(t)), InstantOf(t) % DAY_SECONDS, Ordinal(t.date), t.hour * 3600 + t.minute * 60 + t.second);
  }

  // ---------------------------------------------------------------- freshness, on the clock

  /** On the clock: a PRELIMINARY is fresh when it was observed on the cutoff's date, before the cutoff,
      and the cutoff is not later than the allowed minutes after it. */
  lemma FreshOnTheClock(t: Stamp, cutoff: Stamp, minutes: nat)
    requires RealStamp(t) && RealStamp(cutoff)
    ensures var seen, now := t.hour * 60 + t.minute, cutoff.hour * 60 + cutoff.minute;
            S.FreshEnough(InstantOf(t), InstantOf(cutoff), minutes)
            <==> && t.date == cutoff.date
                 && (seen < now || (seen == now && t.second < cutoff.second))
                 && (now < seen + minutes || (now == seen + minutes && cutoff.second <= t.second))
  {
    DateOfStamp(t);
    DateOfStamp(cutoff);
    if Ordinal(t.date) == Ordinal(cutoff.date) {
      OrdinalIsInjective(t.date, cutoff.date);
    }
    hide Ordinal;
  }

  /** The hours a current-day window asks for are those before the cutoff's hour. */
  lemma HourOnTheClock(t: Stamp)
    requires RealStamp(t)
    ensures S.HourOf(InstantOf(t)) == t.hour
  {
    hide Ordinal;
    DateOfStamp(t);
    assert InstantOf(t) % DAY_SECONDS == t.hour * 3600 + t.minute * 60 + t.second;
  }

  /** A PRELIMINARY may stand in only when that is switched on, for the cutoff's date and the day before. */
  lemma FallbackOnTheCalendar(w: S.Window, cutoff: Stamp, enabled: bool)
    requires RealStamp(cutoff)
    ensures S.MayFallBack(w, InstantOf(cutoff), enabled)
       <==> enabled && (w.day == Ordinal(cutoff.date) || w.day + 1 == Ordinal(cutoff.date))
  {
    DateOfStamp(cutoff);
    hide Ordinal;
  }
}
