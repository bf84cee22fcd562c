/** The writers of BronzeProtocol scheduled alone: each ends where its program in BronzeJobs ends, so the
    interleavings there are interleavings of those programs. (AdvanceAlone in BronzeJobs is the marker
    walk.) */
module BronzeAlone {
  import opened Basics
  import opened BronzeProtocol
  import J = BronzeJobs

  /** Two or three steps in a row. */
  lemma StepsOf(st: Store, job: Job)
    ensures J.Steps(st, job, 1) == StepJob(st, job)
    ensures J.Steps(st, job, 2) == J.Steps(StepJob(st, job).0, StepJob(st, job).1, 1)
    ensures J.Steps(st, job, 3) == J.Steps(StepJob(st, job).0, StepJob(st, job).1, 2)
    ensures J.Steps(st, job, 4) == J.Steps(StepJob(st, job).0, StepJob(st, job).1, 3)
  {
    hide StepJob;
    var (st', job') := StepJob(st, job);
    assert J.Steps(st, job, 1) == J.Steps(st', job', 0) == (st', job');
  }

  lemma {:induction false} StepsAdd(st: Store, job: Job, m: nat, n: nat)
    ensures J.Steps(st, job, m + n) == J.Steps(J.Steps(st, job, m).0, J.Steps(st, job, m).1, n)
    decreases m
  {
    hide StepJob;
    if m > 0 {
      StepsAdd(StepJob(st, job).0, StepJob(st, job).1, m - 1, n);
    }
  }

  /** 23:59:59, the last second of a day. */
  lemma ReservedSecond()
    ensures CATCHUP_SECOND == (23 * 60 + 59) * 60 + 59
  {
  }

  /** The daily promotion: the commit, then the document that lists its entries and promotes their days. */
  lemma PromoteAlone(st: Store, cutoff: Cutoff, entries: seq<Entry>)
    ensures J.Steps(st, Promote(cutoff, entries, false), 2)
         == (st.(bronze := Commit(st.bronze, entries), promotions := st.promotions[cutoff := Promotion(DaysOf(entries), entries)]),
             Finished)
  {
    hide Commit;
    StepsOf(st, Promote(cutoff, entries, false));
    var committed := st.(bronze := Commit(st.bronze, entries));
    StepsOf(committed, Promote(cutoff, entries, true));
  }

  /** The documents once those of days[next..] are filed. */
  function Documents(before: map<Cutoff, Promotion>, days: seq<Day>, next: nat): map<Cutoff, Promotion>
    requires next <= |days|
    decreases |days| - next
  {
    if next == |days| then before
    else Documents(before[Cutoff(days[next], CATCHUP_SECOND) := Promotion({days[next]}, [Entry(days[next], [])])], days, next + 1)
  }

  lemma {:induction false} DocumentsOf(before: map<Cutoff, Promotion>, days: seq<Day>, next: nat, c: Cutoff)
    requires next <= |days|
    ensures var filed := c.second == CATCHUP_SECOND && c.day in days[next..];
            && (c in Documents(before, days, next) <==> c in before || filed)
            && (filed ==> Documents(before, days, next)[c] == Promotion({c.day}, [Entry(c.day, [])]))
            && (c in before && !filed ==> Documents(before, days, next)[c] == before[c])
    decreases |days| - next
  {
    if next < |days| {
      DocumentsOf(before[Cutoff(days[next], CATCHUP_SECOND) := Promotion({days[next]}, [Entry(days[next], [])])], days, next + 1, c);
      assert days[next..] == [days[next]] + days[next + 1..];
    }
  }

  lemma {:induction false} FileAlone(st: Store, days: seq<Day>, next: nat)
    requires next <= |days|
    ensures J.Steps(st, CatchUp(days, true, next), |days| - next + 1)
         == (st.(promotions := Documents(st.promotions, days, next)), Finished)
    decreases |days| - next
  {
    var job := CatchUp(days, true, next);
    StepsOf(st, job);
    if next < |days| {
      var filed := StepJob(st, job).0;
      StepsAdd(st, job, 1, |days| - next);
      FileAlone(filed, days, next + 1);
    }
  }

  /** The catch-up batch: one commit for all its days, then a document for each, as PromoteBatch leaves
      them. */
  lemma CatchUpAlone(st: Store, days: seq<Day>) returns (st': Store)
    ensures J.Steps(st, CatchUp(days, false, 0), |days| + 2) == (st', Finished)
    ensures st' == st.(bronze := CommitFull(st.bronze, days), promotions := st'.promotions)
    ensures forall c :: c in st'.promotions <==> c in st.promotions || (c.second == CATCHUP_SECOND && c.day in days)
    ensures forall c | c in st'.promotions :: st'.promotions[c] == J.BatchDocument(st.promotions, days, c)
  {
    hide CommitFull, Documents;
    var committed := st.(bronze := CommitFull(st.bronze, days));
    st' := committed.(promotions := Documents(st.promotions, days, 0));
    FileAlone(committed, days, 0);
    StepsAdd(st, CatchUp(days, false, 0), 1, |days| + 1);
    StepsOf(st, CatchUp(days, false, 0));
    assert days[0..] == days;
    forall c
      ensures c in st'.promotions <==> c in st.promotions || (c.second == CATCHUP_SECOND && c.day in days)
      ensures c in st'.promotions ==> st'.promotions[c] == J.BatchDocument(st.promotions, days, c)
    {
      DocumentsOf(st.promotions, days, 0, c);
    }
  }

  /** The completion job: nothing for a foreign cutoff; otherwise the day is filed COMPLETE exactly when a
      promotion is stored for the cutoff, and else by what its manifest says. */
  lemma CompletionAlone(st: Store, day: Day, cutoff: Cutoff, manifestEmpty: bool)
    ensures cutoff.day != day ==> J.Steps(st, Completion(day, cutoff, manifestEmpty, None), 1) == (st, Finished)
    ensures cutoff.day == day && cutoff in st.promotions ==>
      J.Steps(st, Completion(day, cutoff, manifestEmpty, None), 2) == (st.(completions := st.completions[day := Complete]), Finished)
    ensures cutoff.day == day && cutoff !in st.promotions ==>
      J.Steps(st, Completion(day, cutoff, manifestEmpty, None), 2)
      == (st.(completions := st.completions[day := if manifestEmpty then CompleteEmpty else Failed]), Finished)
  {
    var job := Completion(day, cutoff, manifestEmpty, None);
    StepsOf(st, job);
    StepsOf(st, StepJob(st, job).1);
  }

  /** The daily update: nothing without a document; otherwise the longest run of its full days. */
  lemma UpdateAlone(st: Store, cutoff: Cutoff)
    ensures cutoff !in st.promotions ==> J.Steps(st, Update(cutoff, None, None), 1) == (st, Finished)
    ensures cutoff in st.promotions ==>
      J.Steps(st, Update(cutoff, None, None), 3)
      == (st.(mark := NextConfirmed(st.mark, FullDayPartitions(st.promotions[cutoff], cutoff.day), cutoff.day)), Finished)
  {
    hide FullDayPartitions;
    var job := Update(cutoff, None, None);
    StepsOf(st, job);
    if cutoff in st.promotions {
      hide NextConfirmed;
      StepsOf(st, Update(cutoff, Some(st.promotions[cutoff]), None));
      StepsOf(st, Update(cutoff, Some(st.promotions[cutoff]), Some(st.mark)));
      NextConfirmedIsContiguous(st.mark, FullDayPartitions(st.promotions[cutoff], cutoff.day), cutoff.day);
    }
  }

  predicate Accepts(st: Store, t: Day, evident: bool) {
    && evident && (st.mark == t - 1 || st.mark == t)
    && (t in st.completions ==> st.completions[t] == ManuallyConfirmedEmpty)
  }

  /** The approval: accepted on evidence, next to the watermark and without another marker, it marks the
      day and moves the watermark to it; refused, it changes nothing. */
  lemma ApprovalAlone(st: Store, t: Day, evident: bool) returns (n: nat)
    ensures J.Steps(st, Approval(t, evident, None, None, false), n)
         == (if !Accepts(st, t, evident) then st
             else st.(completions := st.completions[t := ManuallyConfirmedEmpty], mark := t,
                      approved := if t in st.completions then st.approved else st.approved + {t}), Finished)
  {
    var job := Approval(t, evident, None, None, false);
    StepsOf(st, job);
    var (_, seen) := StepJob(st, job);
    StepsOf(st, seen);
    if seen == Finished {
      n := 1;
    } else {
      var (_, read) := StepJob(st, seen);
      if read == Finished {
        n := 2;
      } else {
        StepsOf(st, read);
        var (marked, last) := StepJob(st, read);
        StepsOf(marked, last);
        n := 4;
        assert t in st.completions ==> st.completions[t := ManuallyConfirmedEmpty] == st.completions;
      }
    }
  }

  /** At any time an unused name may start any of the writers from its beginning, for any document, batch,
      day or cutoff that the reserved instant allows, and any job may die. */
  lemma AnyWriterMayStart(
    sys: System, id: nat, cutoff: Cutoff, entries: seq<Entry>, days: seq<Day>, d: Day, yes: bool)
    requires id !in sys.jobs
    ensures cutoff.second != CATCHUP_SECOND && Distinct(entries) ==>
      Next(sys, Spawn(id, Promote(cutoff, entries, false))) == sys.(jobs := sys.jobs[id := Promote(cutoff, entries, false)])
    ensures Next(sys, Spawn(id, CatchUp(days, false, 0))) == sys.(jobs := sys.jobs[id := CatchUp(days, false, 0)])
    ensures cutoff.second == CATCHUP_SECOND ==>
      Next(sys, Spawn(id, Completion(d, cutoff, yes, None))) == sys.(jobs := sys.jobs[id := Completion(d, cutoff, yes, None)])
    ensures Next(sys, Spawn(id, Advance(d, None, 0))) == sys.(jobs := sys.jobs[id := Advance(d, None, 0)])
    ensures Next(sys, Spawn(id, Update(cutoff, None, None))) == sys.(jobs := sys.jobs[id := Update(cutoff, None, None)])
    ensures Next(sys, Spawn(id, Approval(d, yes, None, None, false)))
         == sys.(jobs := sys.jobs[id := Approval(d, yes, None, None, false)])
    ensures forall other | other in sys.jobs :: Next(sys, Crash(other)) == sys.(jobs := sys.jobs - {other})
  {
  }
}
