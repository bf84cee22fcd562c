/** Cutting the rental-history backlog into chunks, skipping the finished ones, and finding the
    longest finished prefix (ingestion/jobs/compute_silver_rental_history_backfill_ranges.py,
    ingestion/jobs/advance_silver_rental_history_watermark.py,
    ingestion/common/silver_rental_history_completion.py). */
module BackfillPlan {
  import opened Basics

  // ---------------------------------------------------------------- completion markers

  datatype MarkerKey = MarkerKey(range: Range, version: int)

  /** A marker document; `complete` stands for status == "COMPLETE", `ownDataset` for the dataset name. */
  datatype Marker = Marker(ownDataset: bool, complete: bool, range: Range, version: int)

  /** is_complete_marker: the document is believed only when its own fields match. */
  predicate IsCompleteMarker(doc: Marker, range: Range, version: int) {
    doc.ownDataset && doc.complete && doc.range == range && doc.version == version
  }

  predicate IsRangeComplete(store: map<MarkerKey, Marker>, range: Range, version: int) {
    MarkerKey(range, version) in store && IsCompleteMarker(store[MarkerKey(range, version)], range, version)
  }

  /** build_completion_marker followed by write_completion_marker. */
  function WriteCompletion(store: map<MarkerKey, Marker>, range: Range, version: int): map<MarkerKey, Marker> {
    store[MarkerKey(range, version) := Marker(true, true, range, version)]
  }

  /** Finishing a chunk completes that range under that contract version and no other. */
  lemma CompletionIsExact(store: map<MarkerKey, Marker>, range: Range, version: int, other: Range, v: int)
    ensures IsRangeComplete(WriteCompletion(store, range, version), other, v)
       <==> IsRangeComplete(store, other, v) || (other == range && v == version)
  {
  }

  // ---------------------------------------------------------------- planning

  /** Consecutive chunks of `chunkDays` days from `start` through `end`, the last one possibly short. */
  function Chunks(start: Day, end: Day, chunkDays: int): seq<Range>
    requires chunkDays >= 1
    decreases end - start
  {
    if start > end then []
    else
      var last := Min(start + chunkDays - 1, end);
      [Range(start, last)] + Chunks(last + 1, end, chunkDays)
  }

  /** The last day a plan may reach. */
  function PlanEnd(silver: Day, bronze: Day, cap: Option<int>): Day {
    if cap.None? then bronze else Min(bronze, silver + cap.value)
  }

  lemma NextChunk(done: seq<Range>, cursor: Day, end: Day, chunkDays: int)
    requires chunkDays >= 1
    ensures cursor > end ==> done + Chunks(cursor, end, chunkDays) == done
    ensures cursor <= end ==>
      var last := Min(cursor + chunkDays - 1, end);
      done + Chunks(cursor, end, chunkDays) == done + [Range(cursor, last)] + Chunks(last + 1, end, chunkDays)
  {
  }

  method BuildRanges(silver: Day, bronze: Day, chunkDays: int, cap: Option<int>) returns (ranges: seq<Range>)
    requires chunkDays >= 1
    ensures ranges == Chunks(silver + 1, PlanEnd(silver, bronze, cap), chunkDays)
  {
    hide Chunks;
    var start := silver + 1;
    var end := bronze;
    if cap.Some? {
      end := Min(end, start + (cap.value - 1));
    }
    ranges := [];
    var cursor := start;
    assert [] + Chunks(start, end, chunkDays) == Chunks(start, end, chunkDays);
    while cursor <= end
      invariant ranges + Chunks(cursor, end, chunkDays) == Chunks(start, end, chunkDays)
      decreases end - cursor
    {
      NextChunk(ranges, cursor, end, chunkDays);
      var chunkEnd := Min(cursor + (chunkDays - 1), end);
      ranges := ranges + [Range(cursor, chunkEnd)];
      cursor := chunkEnd + 1;
    }
    NextChunk(ranges, cursor, end, chunkDays);
  }

  /** Adjacent, ordered, non-empty ranges from `from` through `to`. */
  ghost predicate Contiguous(ranges: seq<Range>, from: Day, to: Day) {
    if ranges == [] then from > to
    else
      && ranges[0].start == from <= ranges[0].end
      && (if |ranges| == 1 then ranges[0].end == to else Contiguous(ranges[1..], ranges[0].end + 1, to))
  }

  lemma {:induction false} ChunksContiguous(start: Day, end: Day, chunkDays: int)
    requires chunkDays >= 1
    ensures Contiguous(Chunks(start, end, chunkDays), start, end)
    ensures forall r | r in Chunks(start, end, chunkDays) :: r.end - r.start + 1 <= chunkDays
    ensures forall r | r in Chunks(start, end, chunkDays) && r.end != end :: r.end - r.start + 1 == chunkDays
    decreases end - start
  {
    if start <= end {
      var last := Min(start + chunkDays - 1, end);
      ChunksContiguous(last + 1, end, chunkDays);
      assert Chunks(start, end, chunkDays)[1..] == Chunks(last + 1, end, chunkDays);
    }
  }

  lemma {:induction false} Follows(ranges: seq<Range>, from: Day, to: Day, i: nat)
    requires Contiguous(ranges, from, to) && i < |ranges|
    ensures from <= ranges[i].start <= ranges[i].end <= to
    ensures ranges[i].start == if i == 0 then from else ranges[i - 1].end + 1
    ensures i == |ranges| - 1 ==> ranges[i].end == to
    decreases |ranges|
  {
    if |ranges| > 1 {
      Follows(ranges[1..], ranges[0].end + 1, to, if i == 0 then 0 else i - 1);
    }
  }

  lemma {:induction false} StartsIncrease(ranges: seq<Range>, from: Day, to: Day, i: nat, j: nat)
    requires Contiguous(ranges, from, to) && i < j < |ranges|
    ensures ranges[i].end < ranges[j].start
    decreases j
  {
    Follows(ranges, from, to, j);
    if i + 1 < j {
      StartsIncrease(ranges, from, to, i, j - 1);
      Follows(ranges, from, to, j - 1);
    }
  }

  ghost predicate InSome(ranges: seq<Range>, d: Day) {
    exists i :: 0 <= i < |ranges| && ranges[i].Covers(d)
  }

  /** `d` lies in exactly one of the ranges when it is in [from, to], and in none otherwise. */
  ghost predicate InExactlyOne(ranges: seq<Range>, from: Day, to: Day, d: Day) {
    && (from <= d <= to <==> InSome(ranges, d))
    && (forall i, j | 0 <= i < |ranges| && 0 <= j < |ranges| && ranges[i].Covers(d) && ranges[j].Covers(d) :: i == j)
  }

  lemma ContiguousPartitions(ranges: seq<Range>, from: Day, to: Day, d: Day)
    requires Contiguous(ranges, from, to)
    ensures InExactlyOne(ranges, from, to, d)
  {
    ContiguousCovers(ranges, from, to, d);
    forall i, j | 0 <= i < |ranges| && 0 <= j < |ranges| && ranges[i].Covers(d) && ranges[j].Covers(d)
      ensures i == j
    {
      if i < j {
        StartsIncrease(ranges, from, to, i, j);
      } else if j < i {
        StartsIncrease(ranges, from, to, j, i);
      }
    }
  }

  /** The planned ranges partition (silver, end]. */
  lemma PlanPartitions(silver: Day, bronze: Day, chunkDays: int, cap: Option<int>, d: Day)
    requires chunkDays >= 1
    ensures InExactlyOne(Chunks(silver + 1, PlanEnd(silver, bronze, cap), chunkDays),
                         silver + 1, PlanEnd(silver, bronze, cap), d)
  {
    var end := PlanEnd(silver, bronze, cap);
    ChunksContiguous(silver + 1, end, chunkDays);
    ContiguousPartitions(Chunks(silver + 1, end, chunkDays), silver + 1, end, d);
  }

  lemma {:induction false} ContiguousCovers(ranges: seq<Range>, from: Day, to: Day, d: Day)
    requires Contiguous(ranges, from, to)
    ensures from <= d <= to <==> InSome(ranges, d)
    decreases |ranges|
  {
    if i :| 0 <= i < |ranges| && ranges[i].Covers(d) {
      Follows(ranges, from, to, i);
    }
    if ranges != [] && from <= d <= to {
      if d <= ranges[0].end {
        assert ranges[0].Covers(d);
      } else {
        ContiguousCovers(ranges[1..], ranges[0].end + 1, to, d);
        var i :| 0 <= i < |ranges[1..]| && ranges[1..][i].Covers(d);
        assert ranges[i + 1].Covers(d);
      }
    }
  }

  lemma FirstChunk(start: Day, end: Day, chunkDays: int, i: nat)
    requires chunkDays >= 1 && i < |Chunks(start, end, chunkDays)|
    ensures start <= end
    ensures Chunks(start, end, chunkDays)[0] == Range(start, Min(start + chunkDays - 1, end))
    ensures i > 0 ==>
      && i - 1 < |Chunks(Min(start + chunkDays - 1, end) + 1, end, chunkDays)|
      && Chunks(start, end, chunkDays)[i] == Chunks(Min(start + chunkDays - 1, end) + 1, end, chunkDays)[i - 1]
  {
  }

  lemma ChunkExists(start: Day, end: Day, chunkDays: int, i: nat)
    requires chunkDays >= 1 && start <= end
    requires i > 0 ==> i - 1 < |Chunks(Min(start + chunkDays - 1, end) + 1, end, chunkDays)|
    ensures i < |Chunks(start, end, chunkDays)|
  {
  }

  /** Re-planning from the end of chunk k reproduces the old chunks after k: all of them when the
      end is unchanged, and every full-length one when Bronze has grown, so their markers match. */
  lemma {:induction false} ReplanReusesChunks(start: Day, end: Day, end': Day, chunkDays: int, k: nat, i: nat)
    requires chunkDays >= 1 && end <= end'
    requires k < i < |Chunks(start, end, chunkDays)|
    requires var r := Chunks(start, end, chunkDays)[i]; end == end' || r.end - r.start + 1 == chunkDays
    ensures var replanned := Chunks(Chunks(start, end, chunkDays)[k].end + 1, end', chunkDays);
            i - k - 1 < |replanned| && replanned[i - k - 1] == Chunks(start, end, chunkDays)[i]
    decreases i
  {
    hide Chunks;
    var next := Min(start + chunkDays - 1, end) + 1;
    FirstChunk(start, end, chunkDays, i);
    FirstChunk(start, end, chunkDays, k);
    if k > 0 {
      ReplanReusesChunks(next, end, end', chunkDays, k - 1, i - 1);
    } else {
      SamePosition(next, end, end', chunkDays, i - 1);
    }
  }

  lemma {:induction false} SamePosition(start: Day, end: Day, end': Day, chunkDays: int, i: nat)
    requires chunkDays >= 1 && end <= end'
    requires i < |Chunks(start, end, chunkDays)|
    requires var r := Chunks(start, end, chunkDays)[i]; end == end' || r.end - r.start + 1 == chunkDays
    ensures i < |Chunks(start, end', chunkDays)|
    ensures Chunks(start, end', chunkDays)[i] == Chunks(start, end, chunkDays)[i]
    decreases i
  {
    hide Chunks, Contiguous;
    FirstChunk(start, end, chunkDays, i);
    if i > 0 {
      ChunksContiguous(start, end, chunkDays);
      StartsIncrease(Chunks(start, end, chunkDays), start, end, 0, i);
      Follows(Chunks(start, end, chunkDays), start, end, i);
      SamePosition(start + chunkDays, end, end', chunkDays, i - 1);
    }
    ChunkExists(start, end', chunkDays, i);
    FirstChunk(start, end', chunkDays, i);
  }

  /** After the watermark moved to the end of chunk k, with Bronze and the planning cap (which moves with
      the watermark) no earlier than before, chunk i of the old plan is planned again exactly when the
      plan still ends on the same day or the chunk has full length. */
  lemma ReplanReusesIff(silver: Day, bronze: Day, bronze': Day, chunkDays: int, cap: Option<int>, k: nat, i: nat)
    requires chunkDays >= 1 && bronze <= bronze'
    requires k < i < |Chunks(silver + 1, PlanEnd(silver, bronze, cap), chunkDays)|
    ensures var end := PlanEnd(silver, bronze, cap);
            var planned := Chunks(silver + 1, end, chunkDays);
            var end' := PlanEnd(planned[k].end, bronze', cap);
            planned[i] in Chunks(planned[k].end + 1, end', chunkDays) <==> end == end' || Length(planned[i]) == chunkDays
  {
    hide Chunks, Contiguous;
    var end := PlanEnd(silver, bronze, cap);
    var planned := Chunks(silver + 1, end, chunkDays);
    ChunksContiguous(silver + 1, end, chunkDays);
    Follows(planned, silver + 1, end, k);
    Follows(planned, silver + 1, end, i);
    var end' := PlanEnd(planned[k].end, bronze', cap);
    if end == end' || Length(planned[i]) == chunkDays {
      ReplanReusesChunks(silver + 1, end, end', chunkDays, k, i);
    } else if planned[i] in Chunks(planned[k].end + 1, end', chunkDays) {
      ShortOnlyAtTheEnd(planned[k].end + 1, end', chunkDays, planned[i]);
    }
  }

  /** Only a plan's last chunk may be short. */
  lemma ShortOnlyAtTheEnd(start: Day, end: Day, chunkDays: int, r: Range)
    requires chunkDays >= 1 && r in Chunks(start, end, chunkDays) && Length(r) != chunkDays
    ensures r.end == end
  {
    hide Chunks, Contiguous;
    ChunksContiguous(start, end, chunkDays);
  }

  function Length(r: Range): int {
    r.end - r.start + 1
  }

  /** With the end of the plan unchanged the new plan is exactly the suffix of the old one. */
  lemma {:induction false} ReplanIsSuffix(start: Day, end: Day, chunkDays: int, k: nat)
    requires chunkDays >= 1 && k < |Chunks(start, end, chunkDays)|
    ensures Chunks(Chunks(start, end, chunkDays)[k].end + 1, end, chunkDays) == Chunks(start, end, chunkDays)[k + 1..]
    decreases k
  {
    if k > 0 {
      ReplanIsSuffix(Min(start + chunkDays - 1, end) + 1, end, chunkDays, k - 1);
    }
  }

  // ---------------------------------------------------------------- pending chunks

  function Pending(ranges: seq<Range>, store: map<MarkerKey, Marker>, version: int): seq<Range> {
    if ranges == [] then []
    else
      var rest := Pending(ranges[1..], store, version);
      if IsRangeComplete(store, ranges[0], version) then rest else [ranges[0]] + rest
  }

  /** A planned range counts as done exactly when the document under its key is the job's own, COMPLETE,
      and says that very range and contract version; any other document leaves it pending. */
  lemma {:induction false} DoneIff(ranges: seq<Range>, store: map<MarkerKey, Marker>, version: int, r: Range)
    requires r in ranges
    ensures r !in Pending(ranges, store, version)
       <==> && MarkerKey(r, version) in store
            && store[MarkerKey(r, version)] == Marker(true, true, r, version)
    decreases |ranges|
  {
    if r in ranges[1..] {
      DoneIff(ranges[1..], store, version, r);
    } else {
      NotPendingElsewhere(ranges[1..], store, version, r);
    }
    assert ranges == [ranges[0]] + ranges[1..];
  }

  lemma {:induction false} NotPendingElsewhere(ranges: seq<Range>, store: map<MarkerKey, Marker>, version: int, r: Range)
    requires r !in ranges
    ensures r !in Pending(ranges, store, version)
    decreases |ranges|
  {
    if ranges != [] {
      NotPendingElsewhere(ranges[1..], store, version, r);
    }
  }

  lemma {:induction false} PendingAppend(front: seq<Range>, last: Range, store: map<MarkerKey, Marker>, version: int)
    ensures Pending(front + [last], store, version)
         == Pending(front, store, version) + if IsRangeComplete(store, last, version) then [] else [last]
    decreases |front|
  {
    if front != [] {
      assert (front + [last])[1..] == front[1..] + [last];
      PendingAppend(front[1..], last, store, version);
    }
  }

  method SelectPendingRanges(store: map<MarkerKey, Marker>, ranges: seq<Range>, version: int)
    returns (pending: seq<Range>)
    ensures pending == Pending(ranges, store, version)
  {
    pending := [];
    for i := 0 to |ranges|
      invariant pending == Pending(ranges[..i], store, version)
    {
      assert ranges[..i + 1] == ranges[..i] + [ranges[i]];
      PendingAppend(ranges[..i], ranges[i], store, version);
      if !IsRangeComplete(store, ranges[i], version) {
        pending := pending + [ranges[i]];
      }
    }
    assert ranges[..|ranges|] == ranges;
  }

  lemma {:induction false} PendingMembers(ranges: seq<Range>, store: map<MarkerKey, Marker>, version: int, r: Range)
    ensures r in Pending(ranges, store, version) <==> r in ranges && !IsRangeComplete(store, r, version)
    decreases |ranges|
  {
    if ranges != [] {
      PendingMembers(ranges[1..], store, version, r);
      assert r in ranges <==> r == ranges[0] || r in ranges[1..];
    }
  }

  /** The number of pending chunks is a termination measure: each finished pending chunk of a plan
      lowers it by exactly one, whatever else the store holds. */
  lemma {:induction false} FinishingAChunkMakesProgress(
    ranges: seq<Range>, store: map<MarkerKey, Marker>, version: int, r: Range)
    requires forall i, j | 0 <= i < j < |ranges| :: ranges[i] != ranges[j]
    ensures |Pending(ranges, WriteCompletion(store, r, version), version)|
         == |Pending(ranges, store, version)| - if r in Pending(ranges, store, version) then 1 else 0
    decreases |ranges|
  {
    if ranges != [] {
      FinishingAChunkMakesProgress(ranges[1..], store, version, r);
      PendingMembers(ranges[1..], store, version, r);
      PendingMembers(ranges, store, version, r);
      CompletionIsExact(store, r, version, ranges[0], version);
    }
  }

  /** Re-planning the rest of a plan never brings back finished work. */
  lemma {:induction false} ReplanNeverAddsWork(ranges: seq<Range>, store: map<MarkerKey, Marker>, version: int, k: nat)
    requires k <= |ranges|
    ensures |Pending(ranges[k..], store, version)| <= |Pending(ranges, store, version)|
    decreases k
  {
    if k > 0 {
      assert ranges[k..] == ranges[1..][k - 1..];
      ReplanNeverAddsWork(ranges[1..], store, version, k - 1);
    } else {
      assert ranges[k..] == ranges;
    }
  }

  // ---------------------------------------------------------------- the finalizer's walk

  function InsertByStart(r: Range, sorted: seq<Range>): seq<Range> {
    if sorted == [] || r.start <= sorted[0].start then [r] + sorted
    else [sorted[0]] + InsertByStart(r, sorted[1..])
  }

  /** sorted(all_ranges, key=start), a stable sort. */
  function SortByStart(ranges: seq<Range>): seq<Range> {
    if ranges == [] then [] else InsertByStart(ranges[0], SortByStart(ranges[1..]))
  }

  lemma {:induction false} SortKeepsPlans(ranges: seq<Range>, from: Day, to: Day)
    requires Contiguous(ranges, from, to)
    ensures SortByStart(ranges) == ranges
    decreases |ranges|
  {
    if |ranges| > 1 {
      SortKeepsPlans(ranges[1..], ranges[0].end + 1, to);
    } else if |ranges| == 1 {
      assert SortByStart(ranges[1..]) == [];
    }
  }

  /** Ranges the watermark `before` does not already cover. */
  function Uncovered(ranges: seq<Range>, before: Day): seq<Range> {
    if ranges == [] then []
    else (if ranges[0].end <= before then [] else [ranges[0]]) + Uncovered(ranges[1..], before)
  }

  lemma {:induction false} UncoveredAppend(front: seq<Range>, last: Range, before: Day)
    ensures Uncovered(front + [last], before)
         == Uncovered(front, before) + if last.end <= before then [] else [last]
    decreases |front|
  {
    if front != [] {
      assert (front + [last])[1..] == front[1..] + [last];
      UncoveredAppend(front[1..], last, before);
    }
  }

  /** `confirmed` is the longest complete prefix of `live`, and `gap` the range that ends it. */
  ghost predicate LongestCompletePrefix(
    live: seq<Range>, store: map<MarkerKey, Marker>, version: int, confirmed: seq<Range>, gap: Option<Range>)
  {
    && confirmed <= live
    && (forall r | r in confirmed :: IsRangeComplete(store, r, version))
    && (gap.None? ==> confirmed == live)
    && (gap.Some? ==> |confirmed| < |live| && gap.value == live[|confirmed|]
                      && !IsRangeComplete(store, gap.value, version))
  }

  method ConfirmedRanges(store: map<MarkerKey, Marker>, allRanges: seq<Range>, version: int, before: Day)
    returns (confirmed: seq<Range>, gap: Option<Range>)
    ensures LongestCompletePrefix(Uncovered(SortByStart(allRanges), before), store, version, confirmed, gap)
  {
    var ordered := SortByStart(allRanges);
    confirmed := [];
    gap := None;
    for i := 0 to |ordered|
      invariant confirmed == Uncovered(ordered[..i], before)
      invariant forall r | r in confirmed :: IsRangeComplete(store, r, version)
    {
      var chunk := ordered[i];
      assert ordered[..i + 1] == ordered[..i] + [chunk];
      UncoveredAppend(ordered[..i], chunk, before);
      if chunk.end <= before {
        continue;
      }
      if !IsRangeComplete(store, chunk, version) {
        gap := Some(chunk);
        UncoveredPrefix(ordered, i + 1, before);
        return;
      }
      confirmed := confirmed + [chunk];
    }
    assert ordered[..|ordered|] == ordered;
  }

  lemma {:induction false} UncoveredPrefix(ranges: seq<Range>, n: nat, before: Day)
    requires n <= |ranges|
    ensures Uncovered(ranges[..n], before) <= Uncovered(ranges, before)
    decreases |ranges| - n
  {
    if n < |ranges| {
      UncoveredPrefix(ranges, n + 1, before);
      assert ranges[..n + 1] == ranges[..n] + [ranges[n]];
      UncoveredAppend(ranges[..n], ranges[n], before);
    } else {
      assert ranges[..n] == ranges;
    }
  }

  /** Where the finalizer leaves the watermark. */
  function Advanced(before: Day, confirmed: seq<Range>): Day {
    if confirmed == [] then before else Max(before, confirmed[|confirmed| - 1].end)
  }

  lemma {:induction false} UncoveredOfPlan(ranges: seq<Range>, from: Day, to: Day, before: Day) returns (n: nat)
    requires Contiguous(ranges, from, to)
    ensures n <= |ranges| && Uncovered(ranges, before) == ranges[n..]
    ensures forall i | 0 <= i < n :: ranges[i].end <= before
    ensures n < |ranges| ==> before < ranges[n].end
    decreases |ranges|
  {
    n := 0;
    if ranges != [] {
      if before < ranges[0].end {
        AllLater(ranges, from, to, before);
      } else {
        var rest := ranges[1..];
        if rest == [] {
          n := 1;
        } else {
          var k := UncoveredOfPlan(rest, ranges[0].end + 1, to, before);
          assert ranges[k + 1..] == rest[k..];
          n := k + 1;
        }
      }
    }
  }

  lemma {:induction false} AllLater(ranges: seq<Range>, from: Day, to: Day, before: Day)
    requires Contiguous(ranges, from, to) && ranges != [] && before < ranges[0].end
    ensures Uncovered(ranges, before) == ranges
    decreases |ranges|
  {
    var rest := ranges[1..];
    if rest != [] {
      AllLater(rest, ranges[0].end + 1, to, before);
    } else {
      assert Uncovered(rest, before) == [];
    }
    assert ranges == [ranges[0]] + rest;
  }

  /** Reads a longest complete prefix of the suffix plan[n..] as positions of the plan itself. */
  lemma PrefixPositions(
    plan: seq<Range>, n: nat, store: map<MarkerKey, Marker>, version: int, confirmed: seq<Range>, gap: Option<Range>)
    requires n <= |plan| && LongestCompletePrefix(plan[n..], store, version, confirmed, gap)
    ensures n + |confirmed| <= |plan|
    ensures forall i | n <= i < n + |confirmed| :: IsRangeComplete(store, plan[i], version)
    ensures confirmed != [] ==> confirmed[|confirmed| - 1] == plan[n + |confirmed| - 1]
    ensures gap.None? ==> n + |confirmed| == |plan|
    ensures gap.Some? ==> n + |confirmed| < |plan| && gap.value == plan[n + |confirmed|]
  {
    assert forall k | 0 <= k < |confirmed| :: confirmed[k] == plan[n..][k] == plan[n + k];
    forall i | n <= i < n + |confirmed| ensures IsRangeComplete(store, plan[i], version) {
      assert plan[i] == confirmed[i - n];
    }
  }

  /** Positions n <= m in a planner's plan: everything before n was covered, everything in [n, m) is
      complete, and the finalizer stops in front of m. */
  lemma FinalizerPositions(
    plan: seq<Range>, from: Day, to: Day, store: map<MarkerKey, Marker>, version: int, before: Day,
    confirmed: seq<Range>, gap: Option<Range>) returns (n: nat, m: nat)
    requires Contiguous(plan, from, to)
    requires LongestCompletePrefix(Uncovered(SortByStart(plan), before), store, version, confirmed, gap)
    ensures n <= m <= |plan|
    ensures forall i | 0 <= i < n :: plan[i].end <= before
    ensures forall i | n <= i < m :: IsRangeComplete(store, plan[i], version)
    ensures if gap.None? then m == |plan| else m < |plan| && gap.value == plan[m]
    ensures Advanced(before, confirmed) == if n < m then plan[m - 1].end else before
    ensures before <= Advanced(before, confirmed)
    ensures n < |plan| ==> before < plan[n].end
  {
    hide Uncovered, SortByStart, IsRangeComplete, LongestCompletePrefix;
    SortKeepsPlans(plan, from, to);
    n := UncoveredOfPlan(plan, from, to, before);
    PrefixPositions(plan, n, store, version, confirmed, gap);
    m := n + |confirmed|;
    if n < m {
      EndsIncrease(plan, from, to, n, m - 1);
    }
  }

  /** On a planner's plan the finalizer stops at the end of the longest complete prefix: every chunk
      up to the new watermark is complete or was already covered; without a gap the whole plan is
      reached; with one, the watermark stands right below the gap (or below the plan). */
  lemma FinalizerStopsAtTheGap(
    plan: seq<Range>, from: Day, to: Day, store: map<MarkerKey, Marker>, version: int, before: Day,
    confirmed: seq<Range>, gap: Option<Range>)
    requires Contiguous(plan, from, to)
    requires LongestCompletePrefix(Uncovered(SortByStart(plan), before), store, version, confirmed, gap)
    ensures before <= Advanced(before, confirmed)
    ensures forall r | r in plan && r.end <= Advanced(before, confirmed) ::
              r.end <= before || IsRangeComplete(store, r, version)
    ensures gap.None? && plan != [] ==> to <= Advanced(before, confirmed)
    ensures gap.Some? ==> gap.value in plan && !IsRangeComplete(store, gap.value, version)
    ensures gap.Some? ==> Advanced(before, confirmed) < gap.value.end
    ensures gap.Some? ==> gap.value.start <= Max(Advanced(before, confirmed), from - 1) + 1
  {
    var n, m := FinalizerPositions(plan, from, to, store, version, before, confirmed, gap);
    if m < |plan| {
      Follows(plan, from, to, m);
    }
    if plan != [] {
      Follows(plan, from, to, |plan| - 1);
    }
    forall r | r in plan && r.end <= Advanced(before, confirmed)
      ensures r.end <= before || IsRangeComplete(store, r, version)
    {
      var i :| 0 <= i < |plan| && plan[i] == r;
      if m <= i {
        EndsIncrease(plan, from, to, m, i);
      }
    }
  }

  lemma {:induction false} EndsIncrease(ranges: seq<Range>, from: Day, to: Day, i: nat, j: nat)
    requires Contiguous(ranges, from, to) && i <= j < |ranges|
    ensures ranges[i].end <= ranges[j].end
  {
    Follows(ranges, from, to, j);
    if i < j {
      StartsIncrease(ranges, from, to, i, j);
    }
  }

  /** When the measure has reached zero the finalizer meets no gap and covers the whole plan. */
  lemma NothingPendingReachesTheEnd(
    plan: seq<Range>, from: Day, to: Day, store: map<MarkerKey, Marker>, version: int, before: Day,
    confirmed: seq<Range>, gap: Option<Range>)
    requires Contiguous(plan, from, to) && plan != []
    requires LongestCompletePrefix(Uncovered(SortByStart(plan), before), store, version, confirmed, gap)
    requires Pending(plan, store, version) == []
    ensures gap.None? && to <= Advanced(before, confirmed)
  {
    FinalizerStopsAtTheGap(plan, from, to, store, version, before, confirmed, gap);
    if gap.Some? {
      PendingMembers(plan, store, version, gap.value);
    }
  }
}
