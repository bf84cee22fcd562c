/** Promoting the selected snapshots to Bronze in one commit (ingestion/jobs/promote_rental_history_raw.py,
    overwrite_partitions of ingestion/common/iceberg_io.py). */
module Promotion {
  import opened Basics
  import opened ManifestKey
  import S = SnapshotSelection
  import opened RawCollection
  import B = BronzeProtocol

  /** A selected snapshot in the selection document. */
  datatype Selected = Selected(
    date: Date, stamp: Stamp, kind: string, payloadKey: string, hours: seq<int>, rows: Option<int>)

  datatype Document = Document(ownDataset: bool, promotionId: string, selected: seq<Selected>)

  /** A Bronze row carries the raw row and the payload it came from. */
  datatype BronzeRow = BronzeRow(raw: Row, source: string)

  type Bronze = map<Day, multiset<BronzeRow>>

  /** A selected snapshot with its payload loaded. */
  datatype Item = Item(day: Day, source: string, expected: int, rows: seq<Row>)

  datatype Error = Rejected | PayloadMissing | PayloadCountDiffers | SchemaInvalid | CommittedCountDiffers

  /** The COMPLETE document: how many rows each promoted day holds, the promoted days, and the selection
      as it was. */
  datatype Marker = Marker(counts: map<Day, nat>, document: B.Promotion)

  // ---------------------------------------------------------------- checks

  /** The entry must name the payload key its own metadata prints to, and some rows. */
  predicate ValidEntry(e: Selected) {
    && RealDate(e.date) && RealStamp(e.stamp) && e.kind in {S.FINAL, S.PRELIMINARY}
    && e.payloadKey == SnapshotKeys(e.date, e.stamp, e.kind).0
    && e.rows.Some? && e.rows.value > 0
  }

  predicate ValidDocument(doc: Document, promotionId: string) {
    && doc.ownDataset && doc.promotionId == promotionId && doc.selected != []
    && (forall e | e in doc.selected :: ValidEntry(e))
  }

  function InsertByDate(e: Selected, sorted: seq<Selected>): seq<Selected> {
    if sorted == [] || Ordinal(e.date) <= Ordinal(sorted[0].date) then [e] + sorted
    else [sorted[0]] + InsertByDate(e, sorted[1..])
  }

  /** sorted(selected_snapshots, key=target_date) */
  function ByDate(selected: seq<Selected>): seq<Selected> {
    if selected == [] then [] else InsertByDate(selected[0], ByDate(selected[1..]))
  }

  lemma {:induction false} InsertKeepsMembers(e: Selected, sorted: seq<Selected>)
    ensures multiset(InsertByDate(e, sorted)) == multiset(sorted) + multiset{e}
    decreases |sorted|
  {
    if sorted != [] && Ordinal(e.date) > Ordinal(sorted[0].date) {
      InsertKeepsMembers(e, sorted[1..]);
      assert sorted == [sorted[0]] + sorted[1..];
    }
  }

  lemma {:induction false} ByDateKeepsMembers(selected: seq<Selected>)
    ensures multiset(ByDate(selected)) == multiset(selected)
    decreases |selected|
  {
    if selected != [] {
      InsertKeepsMembers(selected[0], ByDate(selected[1..]));
      ByDateKeepsMembers(selected[1..]);
      assert selected == [selected[0]] + selected[1..];
    }
  }

  // ---------------------------------------------------------------- the commit

  function Stamped(item: Item): multiset<BronzeRow> {
    multiset(seq(|item.rows|, i requires 0 <= i < |item.rows| => BronzeRow(item.rows[i], item.source)))
  }

  lemma StampedSize(item: Item)
    ensures |Stamped(item)| == |item.rows|
  {
  }

  function RowsFor(items: seq<Item>, d: Day): multiset<BronzeRow> {
    if items == [] then multiset{}
    else (if items[0].day == d then Stamped(items[0]) else multiset{}) + RowsFor(items[1..], d)
  }

  function DaysOf(items: seq<Item>): set<Day> {
    set i | i in items :: i.day
  }

  /** _committed_partition_counts */
  function Counted(items: seq<Item>): map<Day, nat> {
    map d | d in DaysOf(items) :: |RowsFor(items, d)|
  }

  /** overwrite_partitions: one commit that empties the listed partitions and adds every row. */
  function Overwrite(bronze: Bronze, items: seq<Item>): Bronze {
    map d | d in bronze.Keys + DaysOf(items) :: if d in DaysOf(items) then RowsFor(items, d) else bronze[d]
  }

  ghost predicate DistinctDays(items: seq<Item>) {
    forall i, j | 0 <= i < j < |items| :: items[i].day != items[j].day
  }

  lemma {:induction false} DistinctRows(items: seq<Item>, i: nat)
    requires DistinctDays(items) && i < |items|
    ensures RowsFor(items, items[i].day) == Stamped(items[i])
    decreases |items|
  {
    if i > 0 {
      DistinctRows(items[1..], i - 1);
    } else {
      NoRows(items[1..], items[0].day);
    }
  }

  lemma {:induction false} NoRows(items: seq<Item>, d: Day)
    requires forall i | 0 <= i < |items| :: items[i].day != d
    ensures RowsFor(items, d) == multiset{}
    decreases |items|
  {
    if items != [] {
      NoRows(items[1..], d);
    }
  }

  lemma {:induction false} AtLeastBoth(items: seq<Item>, i: nat, j: nat)
    requires i < j < |items| && items[i].day == items[j].day
    ensures |RowsFor(items, items[i].day)| >= |items[i].rows| + |items[j].rows|
    decreases |items|
  {
    if i > 0 {
      AtLeastBoth(items[1..], i - 1, j - 1);
    } else {
      AtLeastOne(items[1..], j - 1);
      StampedSize(items[0]);
    }
  }

  lemma {:induction false} AtLeastOne(items: seq<Item>, i: nat)
    requires i < |items|
    ensures |RowsFor(items, items[i].day)| >= |items[i].rows|
    decreases |items|
  {
    StampedSize(items[i]);
    if i > 0 {
      AtLeastOne(items[1..], i - 1);
    }
  }

  ghost predicate CountsAgree(items: seq<Item>) {
    forall i | 0 <= i < |items| :: |RowsFor(items, items[i].day)| == |items[i].rows|
  }

  /** Counting the committed rows again finds a fault exactly when two snapshots claim one day. */
  lemma CountCheckFailsOnlyOnSharedDays(items: seq<Item>)
    requires forall i | 0 <= i < |items| :: |items[i].rows| > 0
    ensures CountsAgree(items) <==> DistinctDays(items)
  {
    if DistinctDays(items) {
      forall i | 0 <= i < |items| ensures |RowsFor(items, items[i].day)| == |items[i].rows| {
        DistinctRows(items, i);
        StampedSize(items[i]);
      }
    }
    if CountsAgree(items) {
      forall i, j | 0 <= i < j < |items| ensures items[i].day != items[j].day {
        if items[i].day == items[j].day {
          AtLeastBoth(items, i, j);
        }
      }
    }
  }

  // ---------------------------------------------------------------- the job

  /** Items that carry the plan's entries, each with the payload stored under its key. */
  ghost predicate Loaded(items: seq<Item>, plan: seq<Selected>, payloads: map<string, seq<Row>>) {
    && |items| == |plan|
    && (forall i | 0 <= i < |items| ::
          && plan[i].rows.Some? && plan[i].payloadKey in payloads
          && items[i] == Item(Ordinal(plan[i].date), plan[i].payloadKey, plan[i].rows.value, payloads[plan[i].payloadKey])
          && |items[i].rows| == items[i].expected)
  }

  lemma NothingToOverwrite(bronze: Bronze)
    ensures Overwrite(bronze, []) == bronze
  {
  }

  function EntryOf(e: Selected): B.Entry {
    B.Entry(Ordinal(e.date), e.hours)
  }

  function EntriesOf(selected: seq<Selected>): seq<B.Entry> {
    seq(|selected|, i requires 0 <= i < |selected| => EntryOf(selected[i]))
  }

  /** What the watermark update later reads of a promotion: every selected snapshot, each day promoted. */
  function Written(doc: Document): B.Promotion {
    B.Promotion(B.DaysOf(EntriesOf(doc.selected)), EntriesOf(doc.selected))
  }

  /** The days of the sorted plan are the days the selection lists. */
  lemma PlannedDays(items: seq<Item>, selected: seq<Selected>, payloads: map<string, seq<Row>>)
    requires Loaded(items, ByDate(selected), payloads)
    ensures DaysOf(items) == B.DaysOf(EntriesOf(selected))
  {
    ByDateKeepsMembers(selected);
    var plan, entries := ByDate(selected), EntriesOf(selected);
    hide ByDate;
    forall d | d in DaysOf(items) ensures d in B.DaysOf(entries) {
      var i :| 0 <= i < |items| && items[i].day == d;
      assert plan[i] in multiset(selected);
      var j :| 0 <= j < |selected| && selected[j] == plan[i];
      assert entries[j] in entries;
    }
    forall d | d in B.DaysOf(entries) ensures d in DaysOf(items) {
      var j :| 0 <= j < |entries| && entries[j].day == d;
      assert selected[j] in multiset(plan);
      var i :| 0 <= i < |plan| && plan[i] == selected[j];
      assert items[i] in items;
    }
  }

  /** The payload of a selected snapshot is there, whole and well-formed. */
  predicate Ready(e: Selected, payloads: map<string, seq<Row>>) {
    && e.rows.Some? && e.rows.value > 0 && e.payloadKey in payloads
    && |payloads[e.payloadKey]| == e.rows.value && payloads[e.payloadKey][0].schemaOk
  }

  ghost predicate AllReady(doc: Document, payloads: map<string, seq<Row>>) {
    forall e | e in doc.selected :: Ready(e, payloads)
  }

  ghost predicate DistinctDates(selected: seq<Selected>) {
    forall i, j | 0 <= i < j < |selected| :: Ordinal(selected[i].date) != Ordinal(selected[j].date)
  }

  lemma DistinctCons(e: Selected, rest: seq<Selected>)
    ensures DistinctDates([e] + rest) <==> DistinctDates(rest) && forall x | x in rest :: Ordinal(x.date) != Ordinal(e.date)
  {
    hide Ordinal;
    var all := [e] + rest;
    if DistinctDates(all) {
      forall x | x in rest ensures Ordinal(x.date) != Ordinal(e.date) {
        var k :| 0 <= k < |rest| && rest[k] == x;
        assert all[k + 1] == x && all[0] == e;
      }
      forall i, j | 0 <= i < j < |rest| ensures Ordinal(rest[i].date) != Ordinal(rest[j].date) {
        assert all[i + 1] == rest[i] && all[j + 1] == rest[j];
      }
    }
  }

  lemma {:induction false} InsertKeepsDistinct(e: Selected, sorted: seq<Selected>)
    ensures DistinctDates(InsertByDate(e, sorted)) <==> DistinctDates([e] + sorted)
    decreases |sorted|
  {
    hide DistinctDates, Ordinal;
    if sorted != [] && Ordinal(e.date) > Ordinal(sorted[0].date) {
      var first, rest := sorted[0], sorted[1..];
      InsertKeepsDistinct(e, rest);
      InsertKeepsMembers(e, rest);
      forall x ensures x in InsertByDate(e, rest) <==> x in rest || x == e {
        assert x in InsertByDate(e, rest) <==> x in multiset(InsertByDate(e, rest));
      }
      assert sorted == [first] + rest;
      assert forall x :: x in sorted <==> x == first || x in rest;
      DistinctCons(first, InsertByDate(e, rest));
      DistinctCons(e, rest);
      DistinctCons(e, sorted);
      DistinctCons(first, rest);
    }
  }

  lemma {:induction false} ByDateKeepsDistinct(selected: seq<Selected>)
    ensures DistinctDates(ByDate(selected)) <==> DistinctDates(selected)
    decreases |selected|
  {
    if selected != [] {
      var first, rest := selected[0], selected[1..];
      ByDateKeepsDistinct(rest);
      ByDateKeepsMembers(rest);
      forall x ensures x in ByDate(rest) <==> x in rest {
        assert x in multiset(ByDate(rest)) <==> x in multiset(rest);
      }
      assert selected == [first] + rest;
      InsertKeepsDistinct(first, ByDate(rest));
      DistinctCons(first, ByDate(rest));
      DistinctCons(first, rest);
    }
  }

  /** When the whole job succeeds. */
  ghost predicate Promotable(doc: Document, promotionId: string, payloads: map<string, seq<Row>>) {
    || doc.selected == []
    || (ValidDocument(doc, promotionId) && AllReady(doc, payloads) && DistinctDates(doc.selected))
  }

  lemma ItemsAreDistinctIff(items: seq<Item>, selected: seq<Selected>, payloads: map<string, seq<Row>>)
    requires Loaded(items, ByDate(selected), payloads)
    ensures DistinctDays(items) <==> DistinctDates(selected)
  {
    ByDateKeepsDistinct(selected);
    hide ByDate, Ordinal;
    assert forall i | 0 <= i < |items| :: items[i].day == Ordinal(ByDate(selected)[i].date);
  }

  lemma LoadedWhole(items: seq<Item>, plan: seq<Selected>, payloads: map<string, seq<Row>>)
    requires Loaded(items, plan, payloads)
    ensures forall i | 0 <= i < |items| :: |items[i].rows| == items[i].expected
  {
  }

  /** What a commit of distinct days leaves on each of them, and what counting it gives. */
  lemma CommittedDays(bronze: Bronze, items: seq<Item>)
    requires DistinctDays(items)
    ensures Counted(items).Keys == DaysOf(items)
    ensures forall i | 0 <= i < |items| ::
      && items[i].day in Overwrite(bronze, items) && Overwrite(bronze, items)[items[i].day] == Stamped(items[i])
      && items[i].day in Counted(items) && Counted(items)[items[i].day] == |items[i].rows|
  {
    hide RowsFor, Stamped;
    forall i | 0 <= i < |items|
      ensures items[i].day in DaysOf(items) && RowsFor(items, items[i].day) == Stamped(items[i])
      ensures |Stamped(items[i])| == |items[i].rows|
    {
      DistinctRows(items, i);
      StampedSize(items[i]);
    }
  }

  class BronzeTable {
    var bronze: Bronze

    constructor ()
      ensures bronze == map[]
    {
      bronze := map[];
    }

    /** Reads every payload before anything is written. */
    method LoadPayloads(plan: seq<Selected>, payloads: map<string, seq<Row>>) returns (result: Result<seq<Item>, Error>)
      requires forall e | e in plan :: e.rows.Some?
      ensures result.Ok? ==> Loaded(result.value, plan, payloads)
      ensures result.Err? ==> result.error in {PayloadMissing, PayloadCountDiffers}
      ensures result.Ok? <==>
        forall e | e in plan :: e.payloadKey in payloads && |payloads[e.payloadKey]| == e.rows.value
    {
      var items: seq<Item> := [];
      for i := 0 to |plan|
        invariant Loaded(items, plan[..i], payloads)
        invariant forall j | 0 <= j < i :: plan[j].payloadKey in payloads && |payloads[plan[j].payloadKey]| == plan[j].rows.value
      {
        var e := plan[i];
        assert e in plan;
        if e.payloadKey !in payloads {
          return Err(PayloadMissing);
        }
        if |payloads[e.payloadKey]| != e.rows.value {
          return Err(PayloadCountDiffers);
        }
        items := items + [Item(Ordinal(e.date), e.payloadKey, e.rows.value, payloads[e.payloadKey])];
      }
      assert plan[..|plan|] == plan;
      return Ok(items);
    }

    /** validate_selection_document, entry by entry. */
    method Validate(doc: Document, promotionId: string) returns (valid: bool)
      ensures valid <==> ValidDocument(doc, promotionId)
    {
      hide SnapshotKeys, RealDate, RealStamp;
      if !doc.ownDataset {
        return false;
      }
      if doc.promotionId != promotionId {
        return false;
      }
      if doc.selected == [] {
        return false;
      }
      for i := 0 to |doc.selected|
        invariant forall j | 0 <= j < i :: ValidEntry(doc.selected[j])
      {
        var e := doc.selected[i];
        assert e in doc.selected;
        if !RealDate(e.date) || !RealStamp(e.stamp) || (e.kind != S.FINAL && e.kind != S.PRELIMINARY) {
          return false;
        }
        var (expected, _) := SnapshotKeys(e.date, e.stamp, e.kind);
        if e.payloadKey != expected {
          return false;
        }
        if e.rows.None? || e.rows.value <= 0 {
          return false;
        }
      }
      return true;
    }

    /** Everything that can fail before the commit, and nothing else does. */
    method Prepare(doc: Document, promotionId: string, payloads: map<string, seq<Row>>) returns (result: Result<seq<Item>, Error>)
      ensures result.Ok? <==> ValidDocument(doc, promotionId) && AllReady(doc, payloads)
      ensures result.Ok? ==> Loaded(result.value, ByDate(doc.selected), payloads)
      ensures result.Ok? ==> forall i | 0 <= i < |result.value| :: |result.value[i].rows| > 0
      ensures result.Err? ==> result.error != CommittedCountDiffers
    {
      hide ByDate, SnapshotKeys;
      var valid := Validate(doc, promotionId);
      if !valid {
        return Err(Rejected);
      }
      var plan := ByDate(doc.selected);
      ByDateKeepsMembers(doc.selected);
      forall e ensures e in plan <==> e in doc.selected {
        assert e in multiset(plan) <==> e in multiset(doc.selected);
      }
      var loaded := LoadPayloads(plan, payloads);
      if loaded.Err? {
        return Err(loaded.error);
      }
      forall i | 0 <= i < |loaded.value|
        ensures |loaded.value[i].rows| > 0 && (Ready(plan[i], payloads) <==> loaded.value[i].rows[0].schemaOk)
      {
        assert plan[i] in plan && ValidEntry(plan[i]);
      }
      if i :| 0 <= i < |loaded.value| && !loaded.value[i].rows[0].schemaOk {
        assert plan[i] in plan && !Ready(plan[i], payloads);
        return Err(SchemaInvalid);
      }
      forall e | e in doc.selected ensures Ready(e, payloads) {
        var i :| 0 <= i < |plan| && plan[i] == e;
        assert loaded.value[i].rows[0].schemaOk;
      }
      return loaded;
    }

    /** One commit, then a count of what it left. */
    method CommitItems(items: seq<Item>) returns (result: Result<map<Day, nat>, Error>)
      requires forall i | 0 <= i < |items| :: |items[i].rows| > 0 && |items[i].rows| == items[i].expected
      modifies this
      ensures bronze == Overwrite(old(bronze), items)
      ensures result == if DistinctDays(items) then Ok(Counted(items)) else Err(CommittedCountDiffers)
    {
      hide Overwrite, RowsFor, DistinctDays;
      bronze := Overwrite(bronze, items);
      CountCheckFailsOnlyOnSharedDays(items);
      if exists i | 0 <= i < |items| :: |RowsFor(items, items[i].day)| != items[i].expected {
        return Err(CommittedCountDiffers);
      }
      return Ok(Counted(items));
    }

    /** The whole job. It succeeds exactly when the selection is empty, which is a no-op, or valid, with
        distinct days and every payload in order. Nothing is written unless every payload is there, whole
        and well-formed; the commit replaces exactly the planned days, and the document counts what the
        days now hold and lists the selection. */
    method Promote(doc: Document, promotionId: string, payloads: map<string, seq<Row>>)
      returns (result: Result<Marker, Error>, ghost items: seq<Item>)
      modifies this
      ensures result.Ok? <==> Promotable(doc, promotionId, payloads)
      ensures result.Err? && result.error != CommittedCountDiffers ==> bronze == old(bronze)
      ensures result.Ok? || result.error == CommittedCountDiffers ==>
        && (doc.selected == [] || ValidDocument(doc, promotionId)) && Loaded(items, ByDate(doc.selected), payloads)
        && bronze == Overwrite(old(bronze), items) && (result.Ok? <==> DistinctDays(items))
      ensures result.Ok? ==> result.value.counts.Keys == DaysOf(items) && result.value.document == Written(doc)
      ensures result.Ok? ==> forall i | 0 <= i < |items| ::
        && items[i].day in bronze && bronze[items[i].day] == Stamped(items[i])
        && items[i].day in result.value.counts && result.value.counts[items[i].day] == |items[i].rows|
    {
      items := [];
      if doc.selected == [] {
        NothingToOverwrite(bronze);
        return Ok(Marker(map[], B.Promotion({}, []))), items;
      }
      hide ValidDocument, Overwrite, Counted, Stamped, EntriesOf, ByDate, AllReady, DistinctDates, DistinctDays, Loaded;
      var prepared := Prepare(doc, promotionId, payloads);
      if prepared.Err? {
        return Err(prepared.error), items;
      }
      items := prepared.value;
      ItemsAreDistinctIff(items, doc.selected, payloads);
      LoadedWhole(items, ByDate(doc.selected), payloads);
      var committed := CommitItems(prepared.value);
      if committed.Err? {
        result := Err(committed.error);
      } else {
        PlannedDays(items, doc.selected, payloads);
        CommittedDays(old(bronze), items);
        result := Ok(Marker(committed.value, B.Promotion(committed.value.Keys, EntriesOf(doc.selected))));
      }
    }
  }

  /** Days outside the plan keep their rows. */
  lemma OtherDaysUntouched(bronze: Bronze, items: seq<Item>, d: Day)
    requires d !in DaysOf(items)
    ensures d in Overwrite(bronze, items) <==> d in bronze
    ensures d in bronze ==> Overwrite(bronze, items)[d] == bronze[d]
  {
  }
}
