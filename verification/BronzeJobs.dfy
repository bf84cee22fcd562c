/** The Bronze bookkeeping jobs as the loops they are (ingestion/jobs/advance_completion_watermark.py,
    update_rental_history_confirmed_watermark.py, check_bronze_gap.py,
    confirm_rental_history_empty.py, write_rental_history_completion_marker.py,
    promote_rental_history_catchup_batch.py). */
module BronzeJobs {
  import opened Basics
  import opened BronzeProtocol
  import Watermark

  /** A completion marker; `source` is the manifest a manual approval rests on. */
  datatype Marker = Marker(status: Status, day: Day, source: Option<string>)

  function DaysWith(completions: map<Day, Marker>, accepted: set<Status>): set<Day> {
    set d | d in completions && completions[d].status in accepted
  }

  /** `after` ends the unbroken run of good days that starts right after `before`, up to `limit`. */
  ghost predicate LongestRun(good: set<Day>, before: Day, limit: Day, after: Day) {
    && before <= after
    && (after > before ==> after <= limit)
    && (forall d | before < d <= after :: d in good)
    && (after < limit ==> after + 1 !in good)
  }

  lemma LongestRunIsUnique(good: set<Day>, before: Day, limit: Day, a: Day, b: Day)
    requires LongestRun(good, before, limit, a) && LongestRun(good, before, limit, b)
    ensures a == b
  {
  }

  /** The days of [from, to] that are not good, in order. */
  function Missing(good: set<Day>, from: Day, to: Day): seq<Day>
    decreases 1 + to - from
  {
    if from > to then [] else (if from in good then [] else [from]) + Missing(good, from + 1, to)
  }

  lemma {:induction false} MissingExactly(good: set<Day>, from: Day, to: Day, d: Day)
    ensures d in Missing(good, from, to) <==> from <= d <= to && d !in good
    decreases 1 + to - from
  {
    if from <= to {
      MissingExactly(good, from + 1, to, d);
    }
  }

  lemma {:induction false} MissingAppend(good: set<Day>, from: Day, to: Day)
    requires from <= to + 1
    ensures Missing(good, from, to + 1) == Missing(good, from, to) + (if to + 1 in good then [] else [to + 1])
    decreases 1 + to - from
  {
    if from <= to {
      MissingAppend(good, from + 1, to);
    } else {
      assert Missing(good, from + 1, to + 1) == [];
    }
  }

  /** The gap report and the watermark walk agree: the first missing day is where the walk stops, and
      the walk reaches the target exactly when nothing is missing. */
  lemma GapReportMatchesWalk(good: set<Day>, mark: Day, target: Day, after: Day)
    requires LongestRun(good, mark, target, after) && mark <= target
    ensures Missing(good, mark + 1, target) == [] <==> after == target
    ensures Missing(good, mark + 1, target) != [] ==> Missing(good, mark + 1, target)[0] == after + 1
  {
    SkipGood(good, mark + 1, after, target);
    assert after <= target;
  }

  lemma {:induction false} SkipGood(good: set<Day>, from: Day, upTo: Day, to: Day)
    requires upTo <= to && forall d | from <= d <= upTo :: d in good
    ensures Missing(good, from, to) == Missing(good, Max(from, upTo + 1), to)
    decreases 1 + to - from
  {
    if from <= upTo {
      SkipGood(good, from + 1, upTo, to);
    }
  }

  lemma {:induction false} NextConfirmedIsLongestRun(mark: Day, candidates: set<Day>, runDate: Day)
    ensures LongestRun(candidates, mark, runDate - 1, NextConfirmed(mark, candidates, runDate))
    decreases runDate - mark
  {
    if mark + 1 < runDate && mark + 1 in candidates {
      NextConfirmedIsLongestRun(mark + 1, candidates, runDate);
    }
  }

  /** Scheduling one protocol job alone, n steps. */
  function Steps(st: Store, job: Job, n: nat): (Store, Job)
    decreases n
  {
    if n == 0 then (st, job) else Steps(StepJob(st, job).0, StepJob(st, job).1, n - 1)
  }

  function AcceptedDays(completions: map<Day, Status>): set<Day> {
    set d | d in completions && Accepted(completions, d)
  }

  lemma {:induction false} WalkAlone(st: Store, target: Day, before: Day, cursor: Day) returns (n: nat, after: Day)
    requires before < cursor && (cursor - 1 > before ==> cursor - 1 <= target)
    requires forall d | before < d < cursor :: d in AcceptedDays(st.completions)
    ensures LongestRun(AcceptedDays(st.completions), before, target, after)
    ensures Steps(st, Advance(target, Some(before), cursor), n) == (if after > before then st.(mark := after) else st, Finished)
    decreases target - cursor
  {
    var job := Advance(target, Some(before), cursor);
    if cursor <= target && Accepted(st.completions, cursor) {
      assert StepJob(st, job) == (st, Advance(target, Some(before), cursor + 1));
      n, after := WalkAlone(st, target, before, cursor + 1);
      n := n + 1;
    } else {
      n, after := 1, cursor - 1;
      assert Steps(st, job, 1) == Steps(StepJob(st, job).0, StepJob(st, job).1, 0);
    }
  }

  /** The watermark walk as a protocol job, undisturbed, does what the job's loop is proved to do. */
  lemma AdvanceAlone(st: Store, target: Day) returns (n: nat, after: Day)
    ensures LongestRun(AcceptedDays(st.completions), st.mark, target, after)
    ensures Steps(st, Advance(target, None, 0), n) == (st.(mark := after), Finished)
  {
    assert StepJob(st, Advance(target, None, 0)) == (st, Advance(target, Some(st.mark), st.mark + 1));
    n, after := WalkAlone(st, target, st.mark, st.mark + 1);
    n := n + 1;
  }

  // ---------------------------------------------------------------- manual approval of an empty day

  /** A collection manifest as the approval reads it; `observed` is its KST date, when readable with a
      time zone, and `emptyPayload` says that its payload object is the empty array. */
  datatype Manifest =
    | Unreadable
    | Manifest(status: string, dataset: string, day: Day, requested: seq<int>, completed: seq<int>,
               rows: Option<int>, hasError: bool, observed: Option<Day>, emptyPayload: bool)

  datatype ApprovalError =
    | NoActor | NoManifest | NotEmptyEvidence | EarlierData | MarkNotAdjacent | ConflictingMarker

  /** The code points that str.strip removes. */
  const WHITESPACE: seq<int> :=
    [9, 10, 11, 12, 13, 28, 29, 30, 31, 32, 133, 160, 5760, 8192, 8193, 8194, 8195, 8196, 8197, 8198, 8199, 8200, 8201, 8202,
     8232, 8233, 8239, 8287, 12288]

  predicate Blank(s: string) {
    forall c | c in s :: c as int in WHITESPACE
  }

  /** They are the white space and separators of these ranges. */
  lemma WhitespaceRanges(n: int)
    ensures n in WHITESPACE
       <==> || 0x09 <= n <= 0x0D || 0x1C <= n <= 0x20 || n == 0x85 || n == 0xA0 || n == 0x1680
            || 0x2000 <= n <= 0x200A || n == 0x2028 || n == 0x2029 || n == 0x202F || n == 0x205F || n == 0x3000
  {
  }

  predicate EmptyEvidence(m: Manifest, target: Day) {
    && m.Manifest? && m.status == "COMPLETE_EMPTY" && m.dataset == "rental_history" && m.day == target
    && m.requested == HoursBelow(24) && m.completed == HoursBelow(24)
    && m.rows == Some(0) && !m.hasError
    && m.observed.Some? && m.observed.value > target
    && m.emptyPayload
  }

  predicate HoldsData(m: Manifest) {
    m.Manifest? && m.status == "COMPLETE" && m.rows.Some? && m.rows.value > 0
  }

  /** What is stored about the days: markers and the two watermarks. */
  datatype Meta = Meta(completions: map<Day, Marker>, bronze: Day, silver: Day)

  function ApprovalMarker(target: Day, source: string): Marker {
    Marker(ManuallyConfirmedEmpty, target, Some(source))
  }

  predicate MayApprove(m: Meta, target: Day, source: string) {
    && m.bronze in {target - 1, target} && m.silver in {target - 1, target}
    && (target in m.completions ==> m.completions[target] == ApprovalMarker(target, source))
  }

  function Approved(m: Meta, target: Day, source: string): Meta {
    Meta(m.completions[target := ApprovalMarker(target, source)], target, target)
  }

  /** The approval's three writes, in order; a crash leaves a prefix of them. */
  function AfterWrites(m: Meta, target: Day, source: string, writes: nat): Meta {
    var marked := m.(completions := m.completions[target := ApprovalMarker(target, source)]);
    if writes == 0 then m
    else if writes == 1 then marked
    else if writes == 2 then marked.(bronze := target)
    else marked.(bronze := target, silver := target)
  }

  /** Wherever an approval crashed, running it again is accepted and ends in the same state. */
  lemma CrashedApprovalRecovers(m: Meta, target: Day, source: string, writes: nat)
    requires MayApprove(m, target, source)
    ensures MayApprove(AfterWrites(m, target, source, writes), target, source)
    ensures Approved(AfterWrites(m, target, source, writes), target, source) == Approved(m, target, source)
  {
  }

  /** An approved day leaves neither watermark more than one day behind or ahead of it, so approvals can
      only be chained day by day. */
  lemma ApprovalsChain(m: Meta, target: Day, source: string, target': Day, source': string)
    requires MayApprove(m, target, source) && MayApprove(Approved(m, target, source), target', source')
    ensures target <= target' <= target + 1
    ensures target' == target ==> source' == source
  {
  }

  // ---------------------------------------------------------------- filing a collected day

  const RENTAL_ACCEPTED := {Complete, ManuallyConfirmedEmpty}

  /** The markers after `target` was filed under `status`. */
  function Filed(completions: map<Day, Marker>, target: Day, status: Status): map<Day, Marker> {
    completions[target := Marker(status, target, None)]
  }

  /** A filed day opens the way for the walk that stood right before it exactly when it was filed as
      complete; every day before and after it decides for itself, as it did. */
  lemma FilingOpensTheWalk(completions: map<Day, Marker>, target: Day, status: Status, before: Day, limit: Day, after: Day)
    requires status != ManuallyConfirmedEmpty && target <= limit
    requires LongestRun(DaysWith(Filed(completions, target, status), RENTAL_ACCEPTED), before, limit, after)
    ensures before == target - 1 ==> (after >= target <==> status == Complete)
    ensures after < target - 1 ==> LongestRun(DaysWith(completions, RENTAL_ACCEPTED), before, target - 1, after)
    ensures before < target && status != Complete ==> after < target
  {
    assert target in DaysWith(Filed(completions, target, status), RENTAL_ACCEPTED) <==> status == Complete;
    forall d | d != target
      ensures d in DaysWith(Filed(completions, target, status), RENTAL_ACCEPTED) <==> d in DaysWith(completions, RENTAL_ACCEPTED)
    {
    }
  }

  /** The approval rule and the completion job shut each other out. A filed day, whatever was filed and
      whatever its evidence, cannot be approved any more: filed as empty it is neither walked over nor
      approvable, and filing over an approval takes the approval back. */
  lemma FiledDayCannotBeApproved(
    m: Meta, target: Day, status: Status, source: string, earlier: string, limit: Day, after: Day)
    requires status != ManuallyConfirmedEmpty
    ensures !MayApprove(m.(completions := Filed(m.completions, target, status)), target, source)
    ensures (var over := Filed(Approved(m, target, earlier).completions, target, status);
             status != Complete && target <= limit && LongestRun(DaysWith(over, RENTAL_ACCEPTED), target - 1, limit, after)
             ==> after == target - 1)
  {
    if target <= limit && LongestRun(DaysWith(Filed(Approved(m, target, earlier).completions, target, status), RENTAL_ACCEPTED),
                                     target - 1, limit, after) {
      FilingOpensTheWalk(Approved(m, target, earlier).completions, target, status, target - 1, limit, after);
    }
  }

  /** The document under `c` once the catch-up batch has filed `days`. */
  function BatchDocument(before: map<Cutoff, Promotion>, days: seq<Day>, c: Cutoff): Promotion
    requires c in before || (c.second == CATCHUP_SECOND && c.day in days)
  {
    if c.second == CATCHUP_SECOND && c.day in days then Promotion({c.day}, [Entry(c.day, [])]) else before[c]
  }

  class BronzeMeta {
    const mark: Watermark.Cell
    const silverMark: Watermark.Cell
    var completions: map<Day, Marker>
    var promotions: map<Cutoff, Promotion>
    var bronze: map<Day, Coverage>

    ghost predicate Valid() {
      mark != silverMark
    }

    ghost function View(): Meta
      reads this, mark, silverMark
    {
      Meta(completions, mark.Value(), silverMark.Value())
    }

    constructor (mark: Watermark.Cell, silverMark: Watermark.Cell)
      requires mark != silverMark
      ensures Valid() && this.mark == mark && this.silverMark == silverMark
      ensures completions == map[] && promotions == map[] && bronze == map[]
    {
      this.mark, this.silverMark, completions, promotions, bronze := mark, silverMark, map[], map[], map[];
    }

    /** The marker walk; `incomplete` asks the caller to fail after the watermark has moved. */
    method AdvanceCompletion(target: Day, accepted: set<Status>) returns (confirmed: seq<Day>, incomplete: bool)
      requires Valid()
      modifies mark
      ensures LongestRun(DaysWith(completions, accepted), old(mark.Value()), target, mark.Value())
      ensures |confirmed| == mark.Value() - old(mark.Value())
      ensures forall i | 0 <= i < |confirmed| :: confirmed[i] == old(mark.Value()) + 1 + i
      ensures incomplete <==> mark.Value() < target
    {
      var before := mark.Read();
      var cursor := before + 1;
      confirmed := [];
      while cursor <= target
        invariant before < cursor && cursor - 1 == before + |confirmed|
        invariant cursor - 1 > before ==> cursor - 1 <= target
        invariant forall i | 0 <= i < |confirmed| :: confirmed[i] == before + 1 + i
        invariant forall d | before < d < cursor :: d in DaysWith(completions, accepted)
      {
        if cursor !in completions || completions[cursor].status !in accepted {
          break;
        }
        confirmed := confirmed + [cursor];
        cursor := cursor + 1;
      }
      var after := if confirmed != [] then confirmed[|confirmed| - 1] else before;
      if after > before {
        mark.Write(after);
      }
      incomplete := cursor <= target;
    }

    method CheckGap(target: Day, accepted: set<Status>) returns (missing: seq<Day>)
      ensures missing == Missing(DaysWith(completions, accepted), mark.Value() + 1, target)
    {
      var start := mark.Read();
      start := start + 1;
      missing := [];
      var current := start;
      while current <= target
        invariant start <= current && (current > start ==> current <= target + 1)
        invariant missing == Missing(DaysWith(completions, accepted), start, current - 1)
      {
        MissingAppend(DaysWith(completions, accepted), start, current - 1);
        if current !in completions || completions[current].status !in accepted {
          missing := missing + [current];
        }
        current := current + 1;
      }
      assert current == Max(start, target + 1);
    }

    /** The daily update; None when there is no COMPLETE promotion for this cutoff. */
    method UpdateConfirmed(cutoff: Cutoff) returns (confirmed: Option<seq<Day>>)
      requires Valid()
      modifies mark
      ensures confirmed.None? <==> cutoff !in promotions
      ensures confirmed.None? ==> mark.Value() == old(mark.Value())
      ensures confirmed.Some? ==>
        mark.Value() == NextConfirmed(old(mark.Value()), FullDayPartitions(promotions[cutoff], cutoff.day), cutoff.day)
      ensures confirmed.Some? ==> |confirmed.value| == mark.Value() - old(mark.Value())
    {
      hide FullDayPartitions;
      if cutoff !in promotions {
        return None;
      }
      var candidates := FullDayPartitions(promotions[cutoff], cutoff.day);
      var before := mark.Read();
      var days := [];
      var cursor := before + 1;
      while cursor < cutoff.day && cursor in candidates
        invariant before < cursor && cursor - 1 == before + |days|
        invariant days != [] ==> days[|days| - 1] == cursor - 1
        invariant NextConfirmed(before, candidates, cutoff.day) == NextConfirmed(cursor - 1, candidates, cutoff.day)
        decreases cutoff.day - cursor
      {
        days := days + [cursor];
        cursor := cursor + 1;
      }
      var after := if days == [] then before else days[|days| - 1];
      if !(after <= before) {
        mark.Write(after);
      }
      return Some(days);
    }

    /** Checks the evidence in `manifests`, listed latest key first. */
    method ValidatedEmptyManifest(target: Day, manifests: seq<(string, Manifest)>)
      returns (result: Result<string, ApprovalError>)
      ensures result.Ok? <==>
        manifests != [] && EmptyEvidence(manifests[0].1, target) && forall i | 1 <= i < |manifests| :: !HoldsData(manifests[i].1)
      ensures result.Ok? ==> result.value == manifests[0].0
    {
      if manifests == [] {
        return Err(NoManifest);
      }
      var latest := manifests[0].1;
      if latest.Unreadable? || latest.status != "COMPLETE_EMPTY" || latest.dataset != "rental_history" || latest.day != target {
        return Err(NotEmptyEvidence);
      }
      if latest.requested != HoursBelow(24) || latest.completed != HoursBelow(24) {
        return Err(NotEmptyEvidence);
      }
      if latest.rows != Some(0) || latest.hasError {
        return Err(NotEmptyEvidence);
      }
      if latest.observed.None? || latest.observed.value <= target || !latest.emptyPayload {
        return Err(NotEmptyEvidence);
      }
      for i := 1 to |manifests|
        invariant forall j | 1 <= j < i :: !HoldsData(manifests[j].1)
      {
        var older := manifests[i].1;
        if older.Manifest? && older.status == "COMPLETE" && older.rows.Some? && older.rows.value > 0 {
          return Err(EarlierData);
        }
      }
      return Ok(manifests[0].0);
    }

    /** Approves an empty day: every check first, the marker next, the watermarks last. Dies after `budget`
        of its three writes, if there are more to come. */
    method ConfirmEmpty(target: Day, confirmedBy: string, reason: string, manifests: seq<(string, Manifest)>, budget: nat)
      returns (error: Option<ApprovalError>)
      requires Valid()
      modifies this`completions, mark, silverMark
      ensures error.Some? ==> View() == old(View())
      ensures error.None? <==>
        && !Blank(confirmedBy) && !Blank(reason)
        && manifests != [] && EmptyEvidence(manifests[0].1, target)
        && (forall i | 1 <= i < |manifests| :: !HoldsData(manifests[i].1))
        && MayApprove(old(View()), target, manifests[0].0)
      ensures error.None? ==> View() == AfterWrites(old(View()), target, manifests[0].0, budget)
      ensures error.None? && budget >= 3 ==> View() == Approved(old(View()), target, manifests[0].0)
    {
      if Blank(confirmedBy) || Blank(reason) {
        return Some(NoActor);
      }
      var evidence := ValidatedEmptyManifest(target, manifests);
      if evidence.Err? {
        return Some(evidence.error);
      }
      var bronzeBefore := mark.Read();
      var silverBefore := silverMark.Read();
      if bronzeBefore !in {target - 1, target} || silverBefore !in {target - 1, target} {
        return Some(MarkNotAdjacent);
      }
      if target in completions && completions[target] != ApprovalMarker(target, evidence.value) {
        return Some(ConflictingMarker);
      }
      if budget == 0 {
        return None;
      }
      if target !in completions {
        completions := completions[target := ApprovalMarker(target, evidence.value)];
      }
      if budget == 1 {
        return None;
      }
      if bronzeBefore < target {
        mark.Write(target);
      }
      if budget == 2 {
        return None;
      }
      if silverBefore < target {
        silverMark.Write(target);
      }
      return None;
    }

    /** Files the outcome of one collected day: complete exactly when a promotion is stored for its
        cutoff, never as an approval, and no other day is touched. */
    method WriteCompletionMarker(target: Day, cutoff: Cutoff, manifestEmpty: bool) returns (status: Option<Status>)
      modifies this`completions
      ensures status.None? <==> cutoff.day != target
      ensures status.None? ==> completions == old(completions)
      ensures status.Some? ==> completions == Filed(old(completions), target, status.value)
      ensures status == Some(Complete) <==> cutoff.day == target && cutoff in promotions
      ensures status == Some(CompleteEmpty) <==> cutoff.day == target && cutoff !in promotions && manifestEmpty
      ensures status != Some(ManuallyConfirmedEmpty)
    {
      if cutoff.day != target {
        return None;
      }
      var decided: Status;
      if cutoff in promotions {
        decided := Complete;
      } else if manifestEmpty {
        decided := CompleteEmpty;
      } else {
        decided := Failed;
      }
      completions := completions[target := Marker(decided, target, None)];
      return Some(decided);
    }

    /** One commit for the whole batch, only after every payload was read, and the documents after it. */
    method PromoteBatch(days: seq<Day>, readable: set<Day>) returns (ok: bool)
      modifies this`bronze, this`promotions
      ensures ok <==> Elements(days) <= readable
      ensures !ok ==> bronze == old(bronze) && promotions == old(promotions)
      ensures ok ==> bronze == CommitFull(old(bronze), days)
      ensures ok ==> forall c :: c in promotions <==> c in old(promotions) || (c.second == CATCHUP_SECOND && c.day in days)
      ensures ok ==> forall c | c in promotions :: promotions[c] == BatchDocument(old(promotions), days, c)
    {
      for i := 0 to |days|
        invariant forall d | d in days[..i] :: d in readable
      {
        if days[i] !in readable {
          assert days[i] in Elements(days);
          return false;
        }
      }
      forall d | d in days ensures d in readable {
        assert days[..|days|] == days;
      }
      assert Elements(days) <= readable;
      if days == [] {
        assert CommitFull(bronze, days) == bronze;
        return true;
      }
      bronze := CommitFull(bronze, days);
      for i := 0 to |days|
        invariant bronze == CommitFull(old(bronze), days)
        invariant forall c :: c in promotions <==> c in old(promotions) || (c.second == CATCHUP_SECOND && c.day in days[..i])
        invariant forall c | c in promotions :: promotions[c] == BatchDocument(old(promotions), days[..i], c)
      {
        assert days[..i + 1] == days[..i] + [days[i]];
        promotions := promotions[Cutoff(days[i], CATCHUP_SECOND) := Promotion({days[i]}, [Entry(days[i], [])])];
      }
      assert days[..|days|] == days;
      return true;
    }
  }
}
