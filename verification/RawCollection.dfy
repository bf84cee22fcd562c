/** Collecting one day's raw snapshot hour by hour with concurrent requests
    (ingestion/jobs/collect_rental_history_raw.py). */
module RawCollection {
  import opened Basics
  import opened ManifestKey
  import opened SnapshotSelection

  /** One raw API row; `schemaOk` says whether its columns pass the schema check. */
  datatype Row = Row(id: int, schemaOk: bool)

  /** What one hour's paginated request gave before it ended: the pages, and the error if it failed. */
  datatype HourResult = HourResult(pages: seq<seq<Row>>, error: Option<string>)

  datatype Collected = Collected(pages: nat, rows: seq<Row>, completed: seq<int>, errors: seq<string>)

  const NOTHING := Collected(0, [], [], [])

  function Flatten(pages: seq<seq<Row>>): seq<Row> {
    if pages == [] then [] else Flatten(pages[..|pages| - 1]) + pages[|pages| - 1]
  }

  function AddHour(c: Collected, hour: int, r: HourResult): Collected {
    Collected(c.pages + |r.pages|, c.rows + Flatten(r.pages),
              if r.error.Some? then c.completed else c.completed + [hour],
              if r.error.Some? then c.errors + [r.error.value] else c.errors)
  }

  /** Collecting the hours one after the other, in the given order. */
  function Sequentially(hours: seq<int>, fetch: int -> HourResult): Collected {
    if hours == [] then NOTHING
    else AddHour(Sequentially(hours[..|hours| - 1], fetch), hours[|hours| - 1], fetch(hours[|hours| - 1]))
  }

  // ---------------------------------------------------------------- sorted(results)

  ghost predicate Increasing(s: seq<int>) {
    forall i, j | 0 <= i < j < |s| :: s[i] < s[j]
  }

  function InsertKey(k: int, sorted: seq<int>): seq<int> {
    if sorted == [] || k < sorted[0] then [k] + sorted
    else if k == sorted[0] then sorted
    else [sorted[0]] + InsertKey(k, sorted[1..])
  }

  /** The keys of a dictionary that was filled in the order `keys`, sorted. */
  function SortedKeys(keys: seq<int>): seq<int> {
    if keys == [] then [] else InsertKey(keys[|keys| - 1], SortedKeys(keys[..|keys| - 1]))
  }

  lemma {:induction false} InsertKeyElements(k: int, sorted: seq<int>, x: int)
    ensures x in InsertKey(k, sorted) <==> x in sorted || x == k
    decreases |sorted|
  {
    if sorted != [] && k > sorted[0] {
      InsertKeyElements(k, sorted[1..], x);
      assert sorted == [sorted[0]] + sorted[1..];
    }
  }

  lemma {:induction false} InsertKeySorts(k: int, sorted: seq<int>)
    requires Increasing(sorted)
    ensures Increasing(InsertKey(k, sorted))
    decreases |sorted|
  {
    if sorted != [] && k > sorted[0] {
      var rest := InsertKey(k, sorted[1..]);
      InsertKeySorts(k, sorted[1..]);
      forall i | 0 <= i < |rest| ensures sorted[0] < rest[i] {
        InsertKeyElements(k, sorted[1..], rest[i]);
      }
    }
  }

  lemma {:induction false} SortedKeysSorts(keys: seq<int>)
    ensures Increasing(SortedKeys(keys)) && Elements(SortedKeys(keys)) == Elements(keys)
    decreases |keys|
  {
    if keys != [] {
      var n := |keys| - 1;
      SortedKeysSorts(keys[..n]);
      InsertKeySorts(keys[n], SortedKeys(keys[..n]));
      assert keys == keys[..n] + [keys[n]];
      forall x ensures x in SortedKeys(keys) <==> x in keys {
        InsertKeyElements(keys[n], SortedKeys(keys[..n]), x);
        assert x in SortedKeys(keys[..n]) <==> x in Elements(SortedKeys(keys[..n]));
      }
    }
  }

  lemma FirstIsElement(s: seq<int>)
    ensures s != [] ==> s[0] in Elements(s)
  {
  }

  lemma {:induction false} IncreasingIsDetermined(a: seq<int>, b: seq<int>)
    requires Increasing(a) && Increasing(b) && Elements(a) == Elements(b)
    ensures a == b
    decreases |a|
  {
    FirstIsElement(a);
    FirstIsElement(b);
    if a != [] && b != [] {
      assert a[0] == b[0];
      forall x ensures x in a[1..] <==> x in b[1..] {
        assert x in a <==> x in Elements(a);
        assert x in b <==> x in Elements(b);
      }
      assert Elements(a[1..]) == Elements(b[1..]);
      IncreasingIsDetermined(a[1..], b[1..]);
    }
  }

  /** However the threads finish, the results are combined in the same order. */
  lemma CompletionOrderIsIrrelevant(order: seq<int>, order': seq<int>)
    requires Elements(order) == Elements(order')
    ensures SortedKeys(order) == SortedKeys(order')
  {
    SortedKeysSorts(order);
    SortedKeysSorts(order');
    IncreasingIsDetermined(SortedKeys(order), SortedKeys(order'));
  }

  lemma SortedStaysSorted(hours: seq<int>)
    requires Increasing(hours)
    ensures SortedKeys(hours) == hours
  {
    SortedKeysSorts(hours);
    IncreasingIsDetermined(SortedKeys(hours), hours);
  }

  // ---------------------------------------------------------------- the manifest

  function SchemaValid(rows: seq<Row>): Option<bool> {
    if rows == [] then None else Some(rows[0].schemaOk)
  }

  function StatusOf(c: Collected): SnapshotStatus {
    if c.errors != [] then IncompleteSnapshot else if c.rows == [] then CompleteEmpty else CompleteSnapshot
  }

  function BuildManifest(date: Date, t: Stamp, kind: string, requested: seq<int>, c: Collected): Manifest
    requires RealDate(date) && RealStamp(t)
  {
    Manifest(true, Some(date), kind, Some(InstantOf(t)), SnapshotKeys(date, t, kind).0,
             StatusOf(c), SchemaValid(c.rows), Some(requested), Some(c.completed), Some(|c.rows|))
  }

  predicate Reusable(m: Manifest, requested: seq<int>, payloadKey: string) {
    && m.status == CompleteSnapshot && m.schemaValid == Some(true)
    && m.requested == Some(requested) && m.completed == Some(requested) && m.payloadKey == payloadKey
  }

  /** A manifest found at its key was written there by some earlier collection. */
  ghost predicate WrittenHere(m: Manifest, date: Date, t: Stamp, kind: string)
    requires RealDate(date) && RealStamp(t)
  {
    exists requested, c :: m == BuildManifest(date, t, kind, requested, c)
  }

  predicate Reuses(date: Date, hours: seq<int>, t: Stamp, kind: string, stored: map<string, Manifest>)
    requires RealDate(date) && RealStamp(t)
  {
    var (payloadKey, manifestKey) := SnapshotKeys(date, t, kind);
    manifestKey in stored && Reusable(stored[manifestKey], hours, payloadKey)
  }

  /** The returned manifest and the stored ones, had the hours been collected one after the other. */
  function Collects(
    date: Date, hours: seq<int>, t: Stamp, kind: string, fetch: int -> HourResult, stored: map<string, Manifest>)
    : (Manifest, map<string, Manifest>)
    requires RealDate(date) && RealStamp(t)
  {
    var manifestKey := SnapshotKeys(date, t, kind).1;
    if Reuses(date, hours, t, kind, stored) then (stored[manifestKey], stored)
    else
      var m := BuildManifest(date, t, kind, hours, Sequentially(SortedKeys(hours), fetch));
      (m, stored[manifestKey := m])
  }

  /** The stored manifest of a snapshot, if any, was built from the rows of the stored payload. */
  ghost predicate Backed(
    payloads: map<string, seq<Row>>, manifests: map<string, Manifest>, date: Date, t: Stamp, kind: string)
    requires RealDate(date) && RealStamp(t)
  {
    var (payloadKey, manifestKey) := SnapshotKeys(date, t, kind);
    manifestKey in manifests ==>
      payloadKey in payloads
      && exists requested, c :: manifests[manifestKey] == BuildManifest(date, t, kind, requested, c) && payloads[payloadKey] == c.rows
  }

  ghost predicate AllBacked(payloads: map<string, seq<Row>>, manifests: map<string, Manifest>) {
    forall date, t, kind | RealDate(date) && RealStamp(t) && KindText(kind) :: Backed(payloads, manifests, date, t, kind)
  }

  /** The same for all snapshots but one: what a crash between its two writes leaves. */
  ghost predicate OthersBacked(
    payloads: map<string, seq<Row>>, manifests: map<string, Manifest>, date: Date, t: Stamp, kind: string)
  {
    forall date', t', kind' | RealDate(date') && RealStamp(t') && KindText(kind') && (date', t', kind') != (date, t, kind) ::
      Backed(payloads, manifests, date', t', kind')
  }

  lemma KeysAreApart(date: Date, t: Stamp, kind: string, date': Date, t': Stamp, kind': string)
    requires RealDate(date) && RealStamp(t) && KindText(kind) && RealDate(date') && RealStamp(t') && KindText(kind')
    requires (date, t, kind) != (date', t', kind')
    ensures SnapshotKeys(date, t, kind).0 != SnapshotKeys(date', t', kind').0
    ensures SnapshotKeys(date, t, kind).1 != SnapshotKeys(date', t', kind').1
  {
    if SnapshotKeys(date, t, kind).1 == SnapshotKeys(date', t', kind').1 {
      KeysDoNotCollide(date, t, kind, date', t', kind');
    }
    hide KeyPrefix;
    var p, p' := KeyPrefix(date, t, kind), KeyPrefix(date', t', kind');
    if p + PAYLOAD == p' + PAYLOAD {
      assert p == (p + PAYLOAD)[..|p + PAYLOAD| - |PAYLOAD|];
      assert p' == (p' + PAYLOAD)[..|p' + PAYLOAD| - |PAYLOAD|];
    }
  }

  /** Writing payload and manifest of one snapshot backs it and leaves the others as they were. */
  lemma WritesKeepBacked(
    payloads: map<string, seq<Row>>, manifests: map<string, Manifest>,
    date: Date, t: Stamp, kind: string, requested: seq<int>, c: Collected)
    requires RealDate(date) && RealStamp(t) && KindText(kind) && OthersBacked(payloads, manifests, date, t, kind)
    ensures AllBacked(payloads[SnapshotKeys(date, t, kind).0 := c.rows],
                      manifests[SnapshotKeys(date, t, kind).1 := BuildManifest(date, t, kind, requested, c)])
  {
    hide SnapshotKeys, BuildManifest, KindText;
    var (payloadKey, manifestKey) := SnapshotKeys(date, t, kind);
    var payloads', manifests' := payloads[payloadKey := c.rows], manifests[manifestKey := BuildManifest(date, t, kind, requested, c)];
    forall date', t', kind' | RealDate(date') && RealStamp(t') && KindText(kind')
      ensures Backed(payloads', manifests', date', t', kind')
    {
      if (date', t', kind') != (date, t, kind) {
        KeysAreApart(date, t, kind, date', t', kind');
        assert Backed(payloads, manifests, date', t', kind');
      }
    }
  }

  class RawStore {
    var payloads: map<string, seq<Row>>
    var manifests: map<string, Manifest>

    constructor ()
      ensures payloads == map[] && manifests == map[] && AllBacked(payloads, manifests)
    {
      payloads, manifests := map[], map[];
    }

    /** `order` is the order in which the hour threads happened to finish. Payload first, manifest second;
        a retry after a crash between the two, or a first run, leaves every manifest backed. */
    method CollectSnapshot(
      date: Date, hours: seq<int>, t: Stamp, kind: string, fetch: int -> HourResult, order: seq<int>)
      returns (manifest: Manifest)
      requires RealDate(date) && RealStamp(t) && Elements(order) == Elements(hours)
      modifies this
      ensures Collects(date, hours, t, kind, fetch, old(manifests)) == (manifest, manifests)
      ensures payloads == if Reuses(date, hours, t, kind, old(manifests)) then old(payloads)
                          else old(payloads)[SnapshotKeys(date, t, kind).0 := Sequentially(SortedKeys(hours), fetch).rows]
      ensures KindText(kind) && OthersBacked(old(payloads), old(manifests), date, t, kind)
              && (Reuses(date, hours, t, kind, old(manifests)) ==> AllBacked(old(payloads), old(manifests)))
              ==> AllBacked(payloads, manifests)
    {
      hide SnapshotKeys, BuildManifest, Sequentially, SortedKeys, AllBacked, OthersBacked, KindText;
      var (payloadKey, manifestKey) := SnapshotKeys(date, t, kind);
      if manifestKey in manifests && Reusable(manifests[manifestKey], hours, payloadKey) {
        return manifests[manifestKey];
      }
      var results := FetchHours(order, fetch);
      var c := CombineHours(order, results, fetch);
      CompletionOrderIsIrrelevant(order, hours);
      manifest := BuildManifest(date, t, kind, hours, c);
      if KindText(kind) && OthersBacked(payloads, manifests, date, t, kind) {
        WritesKeepBacked(payloads, manifests, date, t, kind, hours, c);
      }
      payloads := payloads[payloadKey := c.rows];
      manifests := manifests[manifestKey := manifest];
    }
  }

  method FetchHours(order: seq<int>, fetch: int -> HourResult) returns (results: map<int, HourResult>)
    ensures results.Keys == Elements(order) && forall h | h in results :: results[h] == fetch(h)
  {
    results := map[];
    for i := 0 to |order|
      invariant results.Keys == Elements(order[..i])
      invariant forall h | h in results :: results[h] == fetch(h)
    {
      assert order[..i + 1] == order[..i] + [order[i]];
      results := results[order[i] := fetch(order[i])];
    }
    assert order[..|order|] == order;
  }

  /** Combines the results hour by hour, whatever order they arrived in. */
  method CombineHours(order: seq<int>, results: map<int, HourResult>, fetch: int -> HourResult) returns (c: Collected)
    requires results.Keys == Elements(order) && forall h | h in results :: results[h] == fetch(h)
    ensures c == Sequentially(SortedKeys(order), fetch)
  {
    hide SortedKeys, AddHour;
    var keys := SortedKeys(order);
    SortedKeysSorts(order);
    c := NOTHING;
    for i := 0 to |keys|
      invariant c == Sequentially(keys[..i], fetch)
    {
      assert keys[i] in Elements(keys);
      assert keys[..i + 1][..i] == keys[..i];
      c := AddHour(c, keys[i], results[keys[i]]);
    }
    assert keys[..|keys|] == keys;
  }

  // ---------------------------------------------------------------- agreement with the selector

  lemma {:induction false} CompleteMeansEveryHour(hours: seq<int>, fetch: int -> HourResult)
    requires Sequentially(hours, fetch).errors == []
    ensures Sequentially(hours, fetch).completed == hours
    decreases |hours|
  {
    if hours != [] {
      var n := |hours| - 1;
      CompleteMeansEveryHour(hours[..n], fetch);
      assert hours == hours[..n] + [hours[n]];
    }
  }

  /** The candidate the selector makes of a manifest at its key, payload beside it. */
  function Offered(date: Date, t: Stamp, kind: string, m: Manifest): Candidate
    requires RealDate(date) && RealStamp(t)
  {
    Candidate(ParseManifestKey(SnapshotKeys(date, t, kind).1), Some(m), true)
  }

  function Collection(date: Date, t: Stamp, kind: string, hours: seq<int>, fetch: int -> HourResult): Manifest
    requires RealDate(date) && RealStamp(t)
  {
    BuildManifest(date, t, kind, hours, Sequentially(SortedKeys(hours), fetch))
  }

  /** A document that agrees with its key is judged by its status, schema, hours and rows alone. */
  lemma ValidWhenAligned(c: Candidate, date: Date, observed: int, kind: string, payloadKey: string, hours: seq<int>)
    requires RealDate(date) && c.key == Key(date, observed, kind, payloadKey) && c.payloadExists
    requires c.manifest.Some? && c.manifest.value.ownDataset && c.manifest.value.targetDate == Some(date)
    requires c.manifest.value.snapshotType == kind && c.manifest.value.observedAt == Some(observed)
    requires c.manifest.value.payloadKey == payloadKey && c.manifest.value.requested == Some(hours)
    ensures ValidateManifest(c, hours).None?
       <==> && c.manifest.value.status == CompleteSnapshot && c.manifest.value.schemaValid == Some(true)
            && c.manifest.value.completed == Some(hours)
            && c.manifest.value.rows.Some? && c.manifest.value.rows.value > 0
  {
  }

  lemma BuiltIsValidIff(date: Date, t: Stamp, kind: string, hours: seq<int>, c: Collected)
    requires RealDate(date) && RealStamp(t) && KindText(kind)
    requires c.errors == [] ==> c.completed == hours
    ensures ValidateManifest(Offered(date, t, kind, BuildManifest(date, t, kind, hours, c)), hours).None?
       <==> StatusOf(c) == CompleteSnapshot && SchemaValid(c.rows) == Some(true)
  {
    KeyRoundTrip(date, t, kind);
    hide ParseManifestKey, SnapshotKeys, DateText, KindText, InstantOf, ValidateManifest;
    var (payloadKey, manifestKey) := SnapshotKeys(date, t, kind);
    ValidWhenAligned(Candidate(ParseManifestKey(manifestKey), Some(BuildManifest(date, t, kind, hours, c)), true),
                     date, InstantOf(t), kind, payloadKey, hours);
  }

  /** Collector and selector agree: a COMPLETE, schema-valid manifest passes validation for the hours it
      was asked to collect, and that is the only kind that does. */
  lemma CollectedIsValidIff(date: Date, t: Stamp, kind: string, n: nat, fetch: int -> HourResult)
    requires RealDate(date) && RealStamp(t) && KindText(kind)
    ensures ValidateManifest(Offered(date, t, kind, Collection(date, t, kind, HoursBelow(n), fetch)),
                             HoursBelow(n)).None?
       <==> Collection(date, t, kind, HoursBelow(n), fetch).status == CompleteSnapshot
            && Collection(date, t, kind, HoursBelow(n), fetch).schemaValid == Some(true)
  {
    hide ParseManifestKey, SnapshotKeys, DateText, KindText, InstantOf, ValidateManifest;
    SortedStaysSorted(HoursBelow(n));
    var c := Sequentially(HoursBelow(n), fetch);
    if c.errors == [] {
      CompleteMeansEveryHour(HoursBelow(n), fetch);
    }
    BuiltIsValidIff(date, t, kind, HoursBelow(n), c);
  }

  /** The manifest a retried collection reuses is as good as a new one. */
  lemma ReusedIsValid(date: Date, t: Stamp, kind: string, hours: seq<int>, m: Manifest)
    requires RealDate(date) && RealStamp(t) && KindText(kind)
    requires WrittenHere(m, date, t, kind) && Reusable(m, hours, SnapshotKeys(date, t, kind).0)
    ensures ValidateManifest(Offered(date, t, kind, m), hours).None?
  {
    KeyRoundTrip(date, t, kind);
    hide ParseManifestKey, SnapshotKeys, DateText, KindText, InstantOf, ValidateManifest;
    var (payloadKey, manifestKey) := SnapshotKeys(date, t, kind);
    ValidWhenAligned(Candidate(ParseManifestKey(manifestKey), Some(m), true), date, InstantOf(t), kind, payloadKey, hours);
  }

  lemma BuiltIsReusableIff(date: Date, t: Stamp, kind: string, hours: seq<int>, c: Collected)
    requires RealDate(date) && RealStamp(t) && (c.errors == [] ==> c.completed == hours)
    ensures Reusable(BuildManifest(date, t, kind, hours, c), hours, SnapshotKeys(date, t, kind).0)
       <==> StatusOf(c) == CompleteSnapshot && SchemaValid(c.rows) == Some(true)
  {
    hide SnapshotKeys, InstantOf;
  }

  /** What a collection leaves would be reused exactly when it is COMPLETE and schema-valid. */
  lemma CollectedIsReusableIff(date: Date, t: Stamp, kind: string, n: nat, fetch: int -> HourResult, stored: map<string, Manifest>)
    requires RealDate(date) && RealStamp(t)
    ensures var (m, stored') := Collects(date, HoursBelow(n), t, kind, fetch, stored);
            Reuses(date, HoursBelow(n), t, kind, stored') <==> m.status == CompleteSnapshot && m.schemaValid == Some(true)
  {
    hide SnapshotKeys, InstantOf, HoursBelow, Sequentially, SortedKeys;
    SortedStaysSorted(HoursBelow(n));
    var c := Sequentially(HoursBelow(n), fetch);
    if c.errors == [] {
      CompleteMeansEveryHour(HoursBelow(n), fetch);
    }
    BuiltIsReusableIff(date, t, kind, HoursBelow(n), c);
  }

  /** A reusable FINAL at its key, for the hours the selector expects, is what the selector picks,
      whatever else is listed. */
  lemma StoredFinalIsSelected(
    date: Date, t: Stamp, m: Manifest, hours: seq<int>, all: seq<Candidate>, w: Window,
    enabled: bool, maxAge: int, o: SnapshotSelection.Outcome)
    requires RealDate(date) && RealStamp(t) && w.day == Ordinal(date)
    requires hours == ExpectedHours(w.day, DateOf(InstantOf(t)), InstantOf(t), w.role)
    requires WrittenHere(m, date, t, FINAL) && Reusable(m, hours, SnapshotKeys(date, t, FINAL).0)
    requires Offered(date, t, FINAL, m) in all
    requires DistinctInstants(all) && Right(all, InstantOf(t), w, enabled, maxAge, o)
    ensures o == Selected(Offered(date, t, FINAL, m), None)
  {
    hide ParseManifestKey, ValidateManifest, SnapshotKeys;
    var c := Offered(date, t, FINAL, m);
    KeyRoundTrip(date, t, FINAL);
    ReusedIsValid(date, t, FINAL, hours, m);
    FinalDecides(all, all, InstantOf(t), w, c);
    if o.Selected? && o.fallbackReason.None? {
      OneFinal(all, InstantOf(t), w, c, o.candidate);
    }
  }
}
