/** Which raw snapshot is promoted for each required day
    (ingestion/jobs/rental_history_snapshot_policy.py). */
module SnapshotSelection {
  import opened Basics
  import opened ManifestKey

  datatype Role = Confirmed | Current

  datatype Window = Window(day: Day, hours: seq<int>, required: bool, role: Role)

  datatype Code = Missing | Incomplete | Empty | SchemaInvalid | RangeMismatch | StaleOrFuture

  datatype SnapshotStatus = CompleteSnapshot | CompleteEmpty | IncompleteSnapshot | UnknownStatus

  /** A manifest document. `ownDataset` says that it names the rental history; `targetDate` is the date
      whose ISO form it gives; `observedAt` its timestamp, when readable and with a time zone. */
  datatype Manifest = Manifest(
    ownDataset: bool, targetDate: Option<Date>, snapshotType: string, observedAt: Option<int>, payloadKey: string,
    status: SnapshotStatus, schemaValid: Option<bool>, requested: Option<seq<int>>, completed: Option<seq<int>>,
    rows: Option<int>)

  /** What a listed key parses to, its document (None when it is not a JSON object) and whether its
      payload exists. */
  datatype Candidate = Candidate(key: Parsed, manifest: Option<Manifest>, payloadExists: bool)

  const FINAL := "FINAL"
  const PRELIMINARY := "PRELIMINARY"

  function DateOf(instant: int): Day {
    instant / DAY_SECONDS
  }

  function HourOf(instant: int): int {
    instant % DAY_SECONDS / 3600
  }

  // ---------------------------------------------------------------- admissibility

  /** A confirmed target always needs the whole day; only the current day ends at the reference. */
  function ExpectedHours(day: Day, runDate: Day, reference: int, role: Role): seq<int> {
    if role == Confirmed || day < runDate then HoursBelow(24) else HoursBelow(HourOf(reference))
  }

  /** validate_manifest, in the order of its checks. None means usable. */
  function ValidateManifest(c: Candidate, expected: seq<int>): Option<Code> {
    match c.key
    case NoKey => Some(SchemaInvalid)
    case Raises => Some(SchemaInvalid)
    case Key(date, observed, kind, payloadKey) =>
      if c.manifest.None? then Some(Missing)
      else
        var m := c.manifest.value;
        if !m.ownDataset || m.targetDate != Some(date)
           || m.snapshotType != kind || m.observedAt != Some(observed) || m.payloadKey != payloadKey then Some(SchemaInvalid)
        else if m.status == CompleteEmpty then Some(Empty)
        else if m.status != CompleteSnapshot then Some(Incomplete)
        else if m.schemaValid != Some(true) then Some(SchemaInvalid)
        else if m.requested != Some(expected) then Some(RangeMismatch)
        else if m.completed != m.requested then Some(Incomplete)
        else if m.rows.None? || m.rows.value <= 0 then Some(Empty)
        else if !c.payloadExists then Some(Missing)
        else None
  }

  /** The document is about the snapshot its key names. */
  predicate Agrees(m: Manifest, k: Parsed)
    requires k.Key?
  {
    && m.ownDataset && m.targetDate == Some(k.date) && m.snapshotType == k.kind && m.observedAt == Some(k.observed)
    && m.payloadKey == k.payloadKey
  }

  /** Complete, and with the columns it should have. */
  predicate Sound(m: Manifest) {
    m.status == CompleteSnapshot && m.schemaValid == Some(true)
  }

  /** A candidate is usable exactly when its key parses, its document agrees with the key, is complete with
      valid columns, asked for and completed the expected hours, holds rows, and its payload is there. */
  lemma UsableIff(c: Candidate, expected: seq<int>)
    ensures ValidateManifest(c, expected).None?
       <==> && c.key.Key? && c.manifest.Some? && Agrees(c.manifest.value, c.key) && Sound(c.manifest.value)
            && c.manifest.value.requested == Some(expected) && c.manifest.value.completed == Some(expected)
            && c.manifest.value.rows.Some? && 0 < c.manifest.value.rows.value && c.payloadExists
  {
  }

  /** Why it is not: each reason with exactly the case it stands for. */
  lemma ReasonsMean(c: Candidate, expected: seq<int>)
    requires c.key.Key? && c.manifest.Some?
    ensures var m, v := c.manifest.value, ValidateManifest(c, expected);
            && (v == Some(SchemaInvalid) <==> !Agrees(m, c.key) || (m.status == CompleteSnapshot && m.schemaValid != Some(true)))
            && (Agrees(m, c.key) ==>
                  && (v == Some(RangeMismatch) <==> Sound(m) && m.requested != Some(expected))
                  && (v == Some(Incomplete) <==>
                        || (m.status != CompleteSnapshot && m.status != CompleteEmpty)
                        || (Sound(m) && m.requested == Some(expected) && m.completed != m.requested))
                  && (v == Some(Missing) ==> !c.payloadExists) && v != Some(StaleOrFuture))
    ensures c.manifest.value.status == CompleteEmpty && Agrees(c.manifest.value, c.key) ==>
      ValidateManifest(c, expected) == Some(Empty)
  {
  }

  lemma MissingMeans(c: Candidate, expected: seq<int>)
    ensures !c.key.Key? ==> ValidateManifest(c, expected) == Some(SchemaInvalid)
    ensures c.key.Key? && c.manifest.None? ==> ValidateManifest(c, expected) == Some(Missing)
    ensures ValidateManifest(c, expected) == Some(Missing) && c.manifest.Some? ==>
      ValidateManifest(c.(payloadExists := true), expected) == None
  {
  }

  /** validate_preliminary_freshness: same KST day, before the cutoff, not older than the limit. */
  predicate FreshEnough(observed: int, cutoff: int, maxAgeMinutes: int) {
    DateOf(observed) == DateOf(cutoff) && observed < cutoff && cutoff - observed <= maxAgeMinutes * 60
  }

  predicate For(c: Candidate, day: Day, kind: string) {
    var k := c.key;
    k.Key? && Ordinal(k.date) == day && k.kind == kind
  }

  /** This logical run's own FINAL for the window. */
  predicate OwnFinal(c: Candidate, cutoff: int, w: Window) {
    For(c, w.day, FINAL) && c.key.observed == cutoff
  }

  function FinalVerdict(c: Candidate, cutoff: int, w: Window): Option<Code> {
    ValidateManifest(c, ExpectedHours(w.day, DateOf(cutoff), cutoff, w.role))
  }

  /** The reason a PRELIMINARY of the window's day is turned away, if any. */
  function PreliminaryVerdict(c: Candidate, cutoff: int, w: Window, maxAge: int): Option<Code>
    requires For(c, w.day, PRELIMINARY)
  {
    var observed := c.key.observed;
    var hours := ExpectedHours(w.day, DateOf(cutoff), observed, w.role);
    if !FreshEnough(observed, cutoff, maxAge) then Some(StaleOrFuture)
    else if hours == [] then Some(RangeMismatch)
    else ValidateManifest(c, hours)
  }

  /** A PRELIMINARY is turned away first for its age, then for a window that has no hours yet, then like any
      other candidate. */
  lemma PreliminaryReasons(c: Candidate, cutoff: int, w: Window, maxAge: int)
    requires For(c, w.day, PRELIMINARY)
    ensures var hours := ExpectedHours(w.day, DateOf(cutoff), c.key.observed, w.role);
            && (!FreshEnough(c.key.observed, cutoff, maxAge) ==>
                  PreliminaryVerdict(c, cutoff, w, maxAge) == Some(StaleOrFuture))
            && (FreshEnough(c.key.observed, cutoff, maxAge) ==>
                  PreliminaryVerdict(c, cutoff, w, maxAge)
                  == if hours == [] then Some(RangeMismatch) else ValidateManifest(c, hours))
  {
  }

  predicate Admissible(c: Candidate, cutoff: int, w: Window, maxAge: int) {
    For(c, w.day, PRELIMINARY) && PreliminaryVerdict(c, cutoff, w, maxAge).None?
  }

  predicate MayFallBack(w: Window, cutoff: int, enabled: bool) {
    enabled && w.day in {DateOf(cutoff), DateOf(cutoff) - 1}
  }

  // ---------------------------------------------------------------- reading the candidates

  predicate IsManifestKey(key: string) {
    |key| >= |MANIFEST| && key[|key| - |MANIFEST|..] == MANIFEST
  }

  function PayloadBeside(key: string): string
    requires IsManifestKey(key)
  {
    key[..|key| - |MANIFEST|] + PAYLOAD
  }

  /** The manifest keys are those with this ending, and the payload lies beside. */
  lemma ManifestKeysEnd(key: string, front: string)
    ensures IsManifestKey(front + "/manifest.json") && PayloadBeside(front + "/manifest.json") == front + "/payload.json"
    ensures IsManifestKey(key) ==> key == key[..|key| - 14] + "/manifest.json"
  {
    var s := front + "/manifest.json";
    assert s[|s| - |MANIFEST|..] == "/manifest.json" && s[..|s| - |MANIFEST|] == front;
  }

  /** The candidate a listed manifest key stands for, given the keys listed with it. */
  function CandidateOf(key: string, listed: seq<string>, documents: map<string, Manifest>): Candidate
    requires IsManifestKey(key)
  {
    Candidate(ParseManifestKey(key), if key in documents then Some(documents[key]) else None, PayloadBeside(key) in listed)
  }

  ghost predicate Listed(c: Candidate, listed: seq<string>, documents: map<string, Manifest>) {
    exists key :: key in listed && IsManifestKey(key) && c == CandidateOf(key, listed, documents)
  }

  /** The candidates of the manifests among `keys`, one for each and in their order. */
  function CandidatesOf(keys: seq<string>, listed: seq<string>, documents: map<string, Manifest>): seq<Candidate> {
    if keys == [] then []
    else
      CandidatesOf(keys[..|keys| - 1], listed, documents)
      + (if IsManifestKey(keys[|keys| - 1]) then [CandidateOf(keys[|keys| - 1], listed, documents)] else [])
  }

  function CandidatesUnder(dates: seq<Day>, listing: Day -> seq<string>, documents: map<string, Manifest>): seq<Candidate> {
    if dates == [] then []
    else
      var keys := listing(dates[|dates| - 1]);
      CandidatesUnder(dates[..|dates| - 1], listing, documents) + CandidatesOf(keys, keys, documents)
  }

  lemma NoneListed(listing: Day -> seq<string>, documents: map<string, Manifest>)
    ensures CandidatesUnder([], listing, documents) == []
  {
  }

  lemma OneMoreKey(keys: seq<string>, j: nat, listed: seq<string>, documents: map<string, Manifest>)
    requires j <= |keys|
    ensures CandidatesOf(keys[..0], listed, documents) == []
    ensures j < |keys| ==>
      CandidatesOf(keys[..j + 1], listed, documents)
      == CandidatesOf(keys[..j], listed, documents)
         + (if IsManifestKey(keys[j]) then [CandidateOf(keys[j], listed, documents)] else [])
  {
    hide CandidateOf, IsManifestKey;
    if j < |keys| {
      assert keys[..j + 1][..j] == keys[..j];
    }
  }

  lemma OneMoreDate(dates: seq<Day>, i: nat, listing: Day -> seq<string>, documents: map<string, Manifest>)
    requires i < |dates|
    ensures CandidatesUnder(dates[..i + 1], listing, documents)
         == CandidatesUnder(dates[..i], listing, documents) + CandidatesOf(listing(dates[i]), listing(dates[i]), documents)
  {
    assert dates[..i + 1][..i] == dates[..i];
  }

  /** load_candidates: one candidate for each manifest listed under a required date, in listing order. */
  method LoadCandidates(dates: seq<Day>, listing: Day -> seq<string>, documents: map<string, Manifest>)
    returns (all: seq<Candidate>)
    ensures all == CandidatesUnder(dates, listing, documents)
    ensures forall c :: c in all <==> exists i :: 0 <= i < |dates| && Listed(c, listing(dates[i]), documents)
  {
    hide CandidateOf, IsManifestKey, Listed, CandidatesOf, CandidatesUnder;
    all := [];
    NoneListed(listing, documents);
    for i := 0 to |dates|
      invariant all == CandidatesUnder(dates[..i], listing, documents)
    {
      var keys := listing(dates[i]);
      var before := all;
      OneMoreKey(keys, 0, keys, documents);
      for j := 0 to |keys|
        invariant all == before + CandidatesOf(keys[..j], keys, documents)
      {
        OneMoreKey(keys, j, keys, documents);
        if IsManifestKey(keys[j]) {
          all := all + [CandidateOf(keys[j], keys, documents)];
        }
      }
      assert keys[..|keys|] == keys;
      OneMoreDate(dates, i, listing, documents);
    }
    assert dates[..|dates|] == dates;
    forall c ensures c in all <==> exists i :: 0 <= i < |dates| && Listed(c, listing(dates[i]), documents) {
      UnderADate(dates, listing, documents, c);
    }
  }

  lemma {:induction false} UnderADate(dates: seq<Day>, listing: Day -> seq<string>, documents: map<string, Manifest>, c: Candidate)
    ensures c in CandidatesUnder(dates, listing, documents)
       <==> exists i :: 0 <= i < |dates| && Listed(c, listing(dates[i]), documents)
    decreases |dates|
  {
    hide Listed, CandidatesOf;
    if dates != [] {
      var n := |dates| - 1;
      UnderADate(dates[..n], listing, documents, c);
      ListedMeansAmong(listing(dates[n]), documents, c);
      assert dates == dates[..n] + [dates[n]];
      AmongMoreDates(dates[..n], dates[n], listing, documents, c);
    }
  }

  lemma AmongMoreDates(front: seq<Day>, last: Day, listing: Day -> seq<string>, documents: map<string, Manifest>, c: Candidate)
    ensures (exists i :: 0 <= i < |front + [last]| && Listed(c, listing((front + [last])[i]), documents))
       <==> || (exists i :: 0 <= i < |front| && Listed(c, listing(front[i]), documents))
            || Listed(c, listing(last), documents)
  {
    hide Listed;
    var dates := front + [last];
    if i :| 0 <= i < |front| && Listed(c, listing(front[i]), documents) {
      assert dates[i] == front[i];
    }
    assert dates[|front|] == last;
  }

  lemma ListedMeansAmong(keys: seq<string>, documents: map<string, Manifest>, c: Candidate)
    ensures c in CandidatesOf(keys, keys, documents) <==> Listed(c, keys, documents)
  {
    AmongKeys(keys, keys, documents, c);
  }

  lemma {:induction false} AmongKeys(keys: seq<string>, listed: seq<string>, documents: map<string, Manifest>, c: Candidate)
    ensures c in CandidatesOf(keys, listed, documents)
       <==> exists key :: key in keys && IsManifestKey(key) && c == CandidateOf(key, listed, documents)
    decreases |keys|
  {
    hide CandidateOf, IsManifestKey;
    if keys != [] {
      var n := |keys| - 1;
      AmongKeys(keys[..n], listed, documents, c);
      assert keys == keys[..n] + [keys[n]];
    }
  }

  /** Each listed manifest is one candidate: as many candidates as manifests. */
  lemma {:induction false} OneCandidateEach(keys: seq<string>, listed: seq<string>, documents: map<string, Manifest>)
    ensures |CandidatesOf(keys, listed, documents)| == |set i | 0 <= i < |keys| && IsManifestKey(keys[i])|
    decreases |keys|
  {
    hide CandidateOf, IsManifestKey;
    if keys != [] {
      var n := |keys| - 1;
      OneCandidateEach(keys[..n], listed, documents);
      var before := set i | 0 <= i < n && IsManifestKey(keys[..n][i]);
      var all := set i | 0 <= i < |keys| && IsManifestKey(keys[i]);
      assert forall i | 0 <= i < n :: keys[..n][i] == keys[i];
      assert all == if IsManifestKey(keys[n]) then before + {n} else before;
    }
  }

  /** A payload is looked for exactly where the collector writes it. */
  lemma PayloadIsBesideManifest(date: Date, t: Stamp, kind: string)
    requires RealDate(date) && RealStamp(t)
    ensures IsManifestKey(SnapshotKeys(date, t, kind).1)
    ensures PayloadBeside(SnapshotKeys(date, t, kind).1) == SnapshotKeys(date, t, kind).0
  {
    KeyParts(date, t, kind);
  }

  // ---------------------------------------------------------------- what a selection must be

  datatype Outcome =
    | Selected(candidate: Candidate, fallbackReason: Option<Code>)
    | Absent(reason: Code)

  /** Why there is no usable FINAL of this run, when there is none. */
  ghost predicate FinalFails(all: seq<Candidate>, cutoff: int, w: Window, reason: Code) {
    if exists c | c in all :: OwnFinal(c, cutoff, w)
    then exists c | c in all :: OwnFinal(c, cutoff, w) && FinalVerdict(c, cutoff, w) == Some(reason)
    else reason == if (exists c | c in all :: For(c, w.day, FINAL)) then StaleOrFuture else Missing
  }

  ghost predicate Freshest(all: seq<Candidate>, cutoff: int, w: Window, maxAge: int, best: Candidate) {
    && best in all && Admissible(best, cutoff, w, maxAge)
    && (forall c | c in all && Admissible(c, cutoff, w, maxAge) ::
          c.key.observed <= best.key.observed)
  }

  /** Sound and complete: this run's FINAL when it is valid; otherwise, where fallback is allowed, the
      freshest admissible PRELIMINARY; otherwise nothing, and then nothing was admissible. */
  ghost predicate Right(all: seq<Candidate>, cutoff: int, w: Window, enabled: bool, maxAge: int, o: Outcome) {
    match o
    case Selected(c, None) => c in all && OwnFinal(c, cutoff, w) && FinalVerdict(c, cutoff, w).None?
    case Selected(c, Some(reason)) =>
      FinalFails(all, cutoff, w, reason) && MayFallBack(w, cutoff, enabled) && Freshest(all, cutoff, w, maxAge, c)
    case Absent(reason) =>
      && FinalFails(all, cutoff, w, reason)
      && (MayFallBack(w, cutoff, enabled) ==> !exists c | c in all :: Admissible(c, cutoff, w, maxAge))
  }

  // ---------------------------------------------------------------- the algorithm

  /** The last listed FINAL of this run for the window. */
  function LastOwn(all: seq<Candidate>, cutoff: int, w: Window): (own: Option<Candidate>)
    ensures own.Some? ==> own.value in all && OwnFinal(own.value, cutoff, w)
    ensures own.None? ==> !exists c | c in all :: OwnFinal(c, cutoff, w)
  {
    if all == [] then None
    else if OwnFinal(all[|all| - 1], cutoff, w) then Some(all[|all| - 1])
    else LastOwn(all[..|all| - 1], cutoff, w)
  }

  /** What a window's search for a FINAL counts: the reason it fails, except that a day without any
      FINAL is not counted. */
  ghost function FinalCount(all: seq<Candidate>, cutoff: int, w: Window): multiset<Code> {
    var own := LastOwn(all, cutoff, w);
    if own.None? then if exists c | c in all :: For(c, w.day, FINAL) then multiset{StaleOrFuture} else multiset{}
    else
      var verdict := FinalVerdict(own.value, cutoff, w);
      if verdict.None? then multiset{} else multiset{verdict.value}
  }

  predicate FinalUsable(all: seq<Candidate>, cutoff: int, w: Window) {
    var own := LastOwn(all, cutoff, w);
    own.Some? && FinalVerdict(own.value, cutoff, w).None?
  }

  method PickFinal(all: seq<Candidate>, cutoff: int, w: Window)
    returns (found: Option<Candidate>, reason: Code, counted: multiset<Code>)
    ensures found == if FinalUsable(all, cutoff, w) then LastOwn(all, cutoff, w) else None
    ensures found.None? ==> FinalFails(all, cutoff, w, reason)
    ensures counted == FinalCount(all, cutoff, w)
  {
    hide ValidateManifest;
    var matched, current := false, None;
    for i := 0 to |all|
      invariant matched <==> exists c | c in all[..i] :: For(c, w.day, FINAL)
      invariant current == LastOwn(all[..i], cutoff, w)
    {
      assert all[..i + 1] == all[..i] + [all[i]];
      assert all[..i + 1][..i] == all[..i];
      if For(all[i], w.day, FINAL) {
        matched := true;
        if all[i].key.observed == cutoff {
          current := Some(all[i]);
        }
      }
    }
    assert all[..|all|] == all;
    if !matched {
      return None, Missing, multiset{};
    }
    if current.None? {
      return None, StaleOrFuture, multiset{StaleOrFuture};
    }
    var verdict := FinalVerdict(current.value, cutoff, w);
    if verdict.Some? {
      return None, verdict.value, multiset{verdict.value};
    }
    return current, Missing, multiset{};
  }

  /** The best candidate found so far, if any was admissible. */
  ghost predicate BestSoFar(seen: seq<Candidate>, cutoff: int, w: Window, maxAge: int, best: Option<Candidate>) {
    if best.Some? then Freshest(seen, cutoff, w, maxAge, best.value)
    else !exists c | c in seen :: Admissible(c, cutoff, w, maxAge)
  }

  lemma BestExtends(seen: seq<Candidate>, c: Candidate, cutoff: int, w: Window, maxAge: int, best: Option<Candidate>)
    requires BestSoFar(seen, cutoff, w, maxAge, best)
    ensures !Admissible(c, cutoff, w, maxAge) ==> BestSoFar(seen + [c], cutoff, w, maxAge, best)
    ensures Admissible(c, cutoff, w, maxAge) ==>
      BestSoFar(seen + [c], cutoff, w, maxAge,
                if best.None? || best.value.key.observed < c.key.observed then Some(c) else best)
  {
    hide PreliminaryVerdict;
    assert forall d | d in seen + [c] :: d in seen || d == c;
  }

  method PickPreliminary(all: seq<Candidate>, cutoff: int, w: Window, maxAge: int)
    returns (best: Option<Candidate>, counted: multiset<Code>)
    ensures BestSoFar(all, cutoff, w, maxAge, best)
    ensures counted == Turned(all, cutoff, w, maxAge)
  {
    hide PreliminaryVerdict, BestSoFar, Turned;
    best, counted := None, multiset{};
    NothingSeen(cutoff, w, maxAge);
    for i := 0 to |all|
      invariant BestSoFar(all[..i], cutoff, w, maxAge, best)
      invariant best.Some? ==> best.value.key.Key?
      invariant counted == Turned(all[..i], cutoff, w, maxAge)
    {
      var c := all[i];
      assert all[..i + 1] == all[..i] + [c];
      TurnedAppend(all[..i], c, cutoff, w, maxAge);
      BestExtends(all[..i], c, cutoff, w, maxAge, best);
      if !For(c, w.day, PRELIMINARY) {
        continue;
      }
      var verdict := PreliminaryVerdict(c, cutoff, w, maxAge);
      if verdict.Some? {
        counted := counted + multiset{verdict.value};
        continue;
      }
      if best.None? || best.value.key.observed < c.key.observed {
        best := Some(c);
      }
    }
    assert all[..|all|] == all;
  }

  lemma NothingSeen(cutoff: int, w: Window, maxAge: int)
    ensures BestSoFar([], cutoff, w, maxAge, None) && Turned([], cutoff, w, maxAge) == multiset{}
  {
  }

  /** One count per PRELIMINARY of the day that was turned away. */
  function Turned(all: seq<Candidate>, cutoff: int, w: Window, maxAge: int): multiset<Code> {
    if all == [] then multiset{} else TurnedBy(all[0], cutoff, w, maxAge) + Turned(all[1..], cutoff, w, maxAge)
  }

  function TurnedBy(c: Candidate, cutoff: int, w: Window, maxAge: int): multiset<Code> {
    if For(c, w.day, PRELIMINARY) && PreliminaryVerdict(c, cutoff, w, maxAge).Some?
    then multiset{PreliminaryVerdict(c, cutoff, w, maxAge).value} else multiset{}
  }

  lemma {:induction false} TurnedAppend(front: seq<Candidate>, last: Candidate, cutoff: int, w: Window, maxAge: int)
    ensures Turned(front + [last], cutoff, w, maxAge)
         == Turned(front, cutoff, w, maxAge) + TurnedBy(last, cutoff, w, maxAge)
    decreases |front|
  {
    if front == [] {
      assert [last][1..] == [];
    } else {
      assert (front + [last])[1..] == front[1..] + [last];
      TurnedAppend(front[1..], last, cutoff, w, maxAge);
    }
  }

  datatype SelectedEntry = SelectedEntry(window: Window, candidate: Candidate, fallbackReason: Option<Code>)

  datatype MissingEntry = MissingEntry(window: Window, reason: Code)

  datatype Selection = Selection(selected: seq<SelectedEntry>, missing: seq<MissingEntry>, rejections: multiset<Code>)

  function Required(windows: seq<Window>): seq<Window> {
    if windows == [] then [] else (if windows[0].required then [windows[0]] else []) + Required(windows[1..])
  }

  lemma {:induction false} RequiredAppend(front: seq<Window>, last: Window)
    ensures Required(front + [last]) == Required(front) + if last.required then [last] else []
    decreases |front|
  {
    if front != [] {
      assert (front + [last])[1..] == front[1..] + [last];
      RequiredAppend(front[1..], last);
    }
  }

  function SelectedOf(windows: seq<Window>, outcomes: seq<Outcome>): seq<SelectedEntry>
    requires |windows| == |outcomes|
  {
    if windows == [] then []
    else
      SelectedOf(windows[..|windows| - 1], outcomes[..|outcomes| - 1])
      + (match outcomes[|outcomes| - 1]
         case Selected(c, r) => [SelectedEntry(windows[|windows| - 1], c, r)]
         case Absent(_) => [])
  }

  function MissingOf(windows: seq<Window>, outcomes: seq<Outcome>): seq<MissingEntry>
    requires |windows| == |outcomes|
  {
    if windows == [] then []
    else
      MissingOf(windows[..|windows| - 1], outcomes[..|outcomes| - 1])
      + (match outcomes[|outcomes| - 1]
         case Selected(_, _) => []
         case Absent(r) => [MissingEntry(windows[|windows| - 1], r)])
  }

  lemma OutcomesAppend(windows: seq<Window>, outcomes: seq<Outcome>, w: Window, o: Outcome)
    requires |windows| == |outcomes|
    ensures SelectedOf(windows + [w], outcomes + [o]) == SelectedOf(windows, outcomes)
         + (match o case Selected(c, r) => [SelectedEntry(w, c, r)] case Absent(_) => [])
    ensures MissingOf(windows + [w], outcomes + [o]) == MissingOf(windows, outcomes)
         + (match o case Selected(_, _) => [] case Absent(r) => [MissingEntry(w, r)])
  {
    assert (windows + [w])[..|windows|] == windows && (outcomes + [o])[..|outcomes|] == outcomes;
  }

  /** One right outcome per required window, listed in window order, and nothing else. */
  ghost predicate RightSelection(
    all: seq<Candidate>, cutoff: int, windows: seq<Window>, enabled: bool, maxAge: int,
    outcomes: seq<Outcome>, selected: seq<SelectedEntry>, missing: seq<MissingEntry>)
  {
    && |outcomes| == |Required(windows)|
    && (forall i | 0 <= i < |outcomes| :: Right(all, cutoff, Required(windows)[i], enabled, maxAge, outcomes[i]))
    && selected == SelectedOf(Required(windows), outcomes)
    && missing == MissingOf(Required(windows), outcomes)
  }

  lemma RightExtends(
    all: seq<Candidate>, cutoff: int, front: seq<Window>, w: Window, enabled: bool, maxAge: int,
    outcomes: seq<Outcome>, o: Outcome, selected: seq<SelectedEntry>, missing: seq<MissingEntry>)
    requires RightSelection(all, cutoff, front, enabled, maxAge, outcomes, selected, missing)
    ensures !w.required ==> RightSelection(all, cutoff, front + [w], enabled, maxAge, outcomes, selected, missing)
    ensures w.required && Right(all, cutoff, w, enabled, maxAge, o) ==>
      RightSelection(all, cutoff, front + [w], enabled, maxAge, outcomes + [o],
                     selected + (match o case Selected(c, r) => [SelectedEntry(w, c, r)] case Absent(_) => []),
                     missing + (match o case Selected(_, _) => [] case Absent(r) => [MissingEntry(w, r)]))
  {
    hide Right;
    RequiredAppend(front, w);
    if w.required {
      OutcomesAppend(Required(front), outcomes, w, o);
    } else {
      assert Required(front) + [] == Required(front);
    }
  }

  /** FINAL first, then PRELIMINARY where it may stand in. */
  method Decide(all: seq<Candidate>, cutoff: int, w: Window, enabled: bool, maxAge: int)
    returns (o: Outcome, counted: multiset<Code>)
    ensures Right(all, cutoff, w, enabled, maxAge, o)
    ensures counted == Counted(all, cutoff, w, enabled, maxAge)
  {
    hide ValidateManifest, Turned;
    var final, reason, counts := PickFinal(all, cutoff, w);
    if final.Some? {
      return Selected(final.value, None), counts;
    }
    if !MayFallBack(w, cutoff, enabled) {
      return Absent(reason), counts;
    }
    var picked, turned := PickPreliminary(all, cutoff, w, maxAge);
    counts := counts + turned;
    if picked.None? {
      return Absent(reason), counts;
    }
    return Selected(picked.value, Some(reason)), counts;
  }

  /** What one window adds to the rejection counters: its FINAL's failure, and every PRELIMINARY turned
      away where one was looked for. */
  ghost function Counted(all: seq<Candidate>, cutoff: int, w: Window, enabled: bool, maxAge: int): multiset<Code> {
    FinalCount(all, cutoff, w)
    + if FinalUsable(all, cutoff, w) || !MayFallBack(w, cutoff, enabled) then multiset{} else Turned(all, cutoff, w, maxAge)
  }

  ghost function CountedOver(
    all: seq<Candidate>, cutoff: int, windows: seq<Window>, enabled: bool, maxAge: int): multiset<Code>
  {
    if windows == [] then multiset{}
    else
      CountedOver(all, cutoff, windows[..|windows| - 1], enabled, maxAge)
      + Counted(all, cutoff, windows[|windows| - 1], enabled, maxAge)
  }

  lemma CountedAppend(all: seq<Candidate>, cutoff: int, front: seq<Window>, w: Window, enabled: bool, maxAge: int)
    ensures CountedOver(all, cutoff, Required(front + [w]), enabled, maxAge)
         == CountedOver(all, cutoff, Required(front), enabled, maxAge)
            + if w.required then Counted(all, cutoff, w, enabled, maxAge) else multiset{}
  {
    hide Counted;
    RequiredAppend(front, w);
    assert (Required(front) + [w])[..|Required(front)|] == Required(front);
    assert Required(front) + [] == Required(front);
  }

  method SelectSnapshots(cutoff: int, windows: seq<Window>, all: seq<Candidate>, enabled: bool, maxAge: int)
    returns (selection: Selection, ghost outcomes: seq<Outcome>)
    ensures RightSelection(all, cutoff, windows, enabled, maxAge, outcomes, selection.selected, selection.missing)
    ensures selection.rejections == CountedOver(all, cutoff, Required(windows), enabled, maxAge)
    ensures SelectedWindows(selection.selected) + MissingWindows(selection.missing) == multiset(Required(windows))
    ensures forall e | e in selection.selected ::
      Right(all, cutoff, e.window, enabled, maxAge, Selected(e.candidate, e.fallbackReason))
    ensures forall e | e in selection.missing :: Right(all, cutoff, e.window, enabled, maxAge, Absent(e.reason))
  {
    hide Right, SelectedWindows, MissingWindows, RightSelection, Counted, CountedOver, Required;
    NothingChosen(all, cutoff, enabled, maxAge);
    var selected, missing, rejections := [], [], multiset{};
    outcomes := [];
    for i := 0 to |windows|
      invariant RightSelection(all, cutoff, windows[..i], enabled, maxAge, outcomes, selected, missing)
      invariant rejections == CountedOver(all, cutoff, Required(windows[..i]), enabled, maxAge)
    {
      var w := windows[i];
      assert windows[..i + 1] == windows[..i] + [w];
      CountedAppend(all, cutoff, windows[..i], w, enabled, maxAge);
      if !w.required {
        RightExtends(all, cutoff, windows[..i], w, enabled, maxAge, outcomes, Absent(Missing), selected, missing);
        continue;
      }
      var o, counted := Decide(all, cutoff, w, enabled, maxAge);
      RightExtends(all, cutoff, windows[..i], w, enabled, maxAge, outcomes, o, selected, missing);
      rejections := rejections + counted;
      match o {
        case Selected(c, reason) => selected := selected + [SelectedEntry(w, c, reason)];
        case Absent(reason) => missing := missing + [MissingEntry(w, reason)];
      }
      outcomes := outcomes + [o];
      assert selected + [] == selected && missing + [] == missing;
    }
    assert windows[..|windows|] == windows;
    selection := Selection(selected, missing, rejections);
    EntriesAreRight(all, cutoff, windows, enabled, maxAge, outcomes, selected, missing);
  }

  lemma NothingChosen(all: seq<Candidate>, cutoff: int, enabled: bool, maxAge: int)
    ensures RightSelection(all, cutoff, [], enabled, maxAge, [], [], [])
    ensures CountedOver(all, cutoff, Required([]), enabled, maxAge) == multiset{}
  {
  }

  lemma EntriesAreRight(
    all: seq<Candidate>, cutoff: int, windows: seq<Window>, enabled: bool, maxAge: int,
    outcomes: seq<Outcome>, selected: seq<SelectedEntry>, missing: seq<MissingEntry>)
    requires RightSelection(all, cutoff, windows, enabled, maxAge, outcomes, selected, missing)
    ensures SelectedWindows(selected) + MissingWindows(missing) == multiset(Required(windows))
    ensures forall e | e in selected :: Right(all, cutoff, e.window, enabled, maxAge, Selected(e.candidate, e.fallbackReason))
    ensures forall e | e in missing :: Right(all, cutoff, e.window, enabled, maxAge, Absent(e.reason))
  {
    hide Right, SelectedOf, MissingOf, SelectedWindows, MissingWindows, Required;
    OneEntryPerWindow(Required(windows), outcomes);
    forall e | e in selected ensures Right(all, cutoff, e.window, enabled, maxAge, Selected(e.candidate, e.fallbackReason)) {
      SelectedFrom(Required(windows), outcomes, e);
    }
    forall e | e in missing ensures Right(all, cutoff, e.window, enabled, maxAge, Absent(e.reason)) {
      MissingFrom(Required(windows), outcomes, e);
    }
  }

  lemma {:induction false} SelectedFrom(windows: seq<Window>, outcomes: seq<Outcome>, e: SelectedEntry)
    requires |windows| == |outcomes| && e in SelectedOf(windows, outcomes)
    ensures exists i :: 0 <= i < |windows| && windows[i] == e.window && outcomes[i] == Selected(e.candidate, e.fallbackReason)
    decreases |windows|
  {
    var n := |windows| - 1;
    if e in SelectedOf(windows[..n], outcomes[..n]) {
      SelectedFrom(windows[..n], outcomes[..n], e);
      var i :| 0 <= i < n && windows[..n][i] == e.window && outcomes[..n][i] == Selected(e.candidate, e.fallbackReason);
      assert windows[i] == e.window;
    } else {
      assert windows[n] == e.window;
    }
  }

  lemma {:induction false} MissingFrom(windows: seq<Window>, outcomes: seq<Outcome>, e: MissingEntry)
    requires |windows| == |outcomes| && e in MissingOf(windows, outcomes)
    ensures exists i :: 0 <= i < |windows| && windows[i] == e.window && outcomes[i] == Absent(e.reason)
    decreases |windows|
  {
    var n := |windows| - 1;
    if e in MissingOf(windows[..n], outcomes[..n]) {
      MissingFrom(windows[..n], outcomes[..n], e);
      var i :| 0 <= i < n && windows[..n][i] == e.window && outcomes[..n][i] == Absent(e.reason);
      assert windows[i] == e.window;
    } else {
      assert windows[n] == e.window;
    }
  }

  // ---------------------------------------------------------------- what follows

  /** No two candidates are snapshots of the same type, day and instant. */
  ghost predicate DistinctInstants(all: seq<Candidate>) {
    forall c, d | c in all && d in all && c.key.Key? && d.key.Key?
                  && c.key.kind == d.key.kind
                  && c.key.date == d.key.date
                  && c.key.observed == d.key.observed :: c == d
  }

  lemma OneFinal(all: seq<Candidate>, cutoff: int, w: Window, c: Candidate, d: Candidate)
    requires DistinctInstants(all) && c in all && d in all && OwnFinal(c, cutoff, w) && OwnFinal(d, cutoff, w)
    ensures c == d
  {
    SameDay(c, d, w.day, FINAL);
  }

  lemma SameDay(c: Candidate, d: Candidate, day: Day, kind: string)
    requires For(c, day, kind) && For(d, day, kind)
    ensures c.key.date == d.key.date
  {
    OrdinalIsInjective(c.key.date, d.key.date);
  }

  /** The conditions on an outcome leave exactly one, so nothing but the set of candidates decides it:
      not the order they were listed in. */
  lemma SelectionIgnoresOrder(
    all: seq<Candidate>, all': seq<Candidate>, cutoff: int, w: Window, enabled: bool, maxAge: int, o: Outcome, o': Outcome)
    requires Elements(all) == Elements(all') && DistinctInstants(all)
    requires Right(all, cutoff, w, enabled, maxAge, o) && Right(all', cutoff, w, enabled, maxAge, o')
    ensures o == o'
  {
    hide ValidateManifest;
    assert forall c :: c in all <==> c in Elements(all);
    assert forall c :: c in all' <==> c in Elements(all');
    OneReason(all, all', cutoff, w);
    match (o, o') {
      case (Selected(c, None), Selected(d, None)) => OneFinal(all, cutoff, w, c, d);
      case (Selected(c, Some(_)), Selected(d, Some(_))) => OneFreshest(all, all', cutoff, w, maxAge, c, d);
      case (Selected(c, None), _) => FinalDecides(all, all', cutoff, w, c);
      case (_, Selected(d, None)) => FinalDecides(all, all', cutoff, w, d);
      case (_, _) =>
    }
  }

  lemma OneReason(all: seq<Candidate>, all': seq<Candidate>, cutoff: int, w: Window)
    requires (forall c :: c in all <==> c in all') && DistinctInstants(all)
    ensures forall r, r' | FinalFails(all, cutoff, w, r) && FinalFails(all', cutoff, w, r') :: r == r'
  {
    forall r, r' | FinalFails(all, cutoff, w, r) && FinalFails(all', cutoff, w, r') ensures r == r' {
      if exists c | c in all :: OwnFinal(c, cutoff, w) {
        var c :| c in all && OwnFinal(c, cutoff, w) && FinalVerdict(c, cutoff, w) == Some(r);
        var d :| d in all' && OwnFinal(d, cutoff, w) && FinalVerdict(d, cutoff, w) == Some(r');
        OneFinal(all, cutoff, w, c, d);
      }
    }
  }

  lemma FinalDecides(all: seq<Candidate>, all': seq<Candidate>, cutoff: int, w: Window, c: Candidate)
    requires (forall c :: c in all <==> c in all') && DistinctInstants(all)
    requires c in all && OwnFinal(c, cutoff, w) && FinalVerdict(c, cutoff, w).None?
    ensures forall r :: !FinalFails(all, cutoff, w, r) && !FinalFails(all', cutoff, w, r)
  {
    forall d | d in all && OwnFinal(d, cutoff, w) ensures FinalVerdict(d, cutoff, w).None? {
      OneFinal(all, cutoff, w, c, d);
    }
  }

  lemma OneFreshest(
    all: seq<Candidate>, all': seq<Candidate>, cutoff: int, w: Window, maxAge: int, c: Candidate, d: Candidate)
    requires (forall c :: c in all <==> c in all') && DistinctInstants(all)
    requires Freshest(all, cutoff, w, maxAge, c) && Freshest(all', cutoff, w, maxAge, d)
    ensures c == d
  {
    assert c.key.observed == d.key.observed;
    SameDay(c, d, w.day, PRELIMINARY);
  }

  lemma {:induction false} TurnedWithout(all: seq<Candidate>, i: nat, cutoff: int, w: Window, maxAge: int)
    requires i < |all|
    ensures Turned(all, cutoff, w, maxAge)
         == TurnedBy(all[i], cutoff, w, maxAge) + Turned(all[..i] + all[i + 1..], cutoff, w, maxAge)
    decreases i
  {
    hide TurnedBy;
    if i == 0 {
      assert all[..0] + all[1..] == all[1..];
    } else {
      TurnedWithout(all[1..], i - 1, cutoff, w, maxAge);
      assert all[1..][..i - 1] + all[1..][i..] == (all[..i] + all[i + 1..])[1..];
    }
  }

  lemma Cancel<T>(x: multiset<T>, y: multiset<T>, e: T)
    requires x + multiset{e} == y + multiset{e}
    ensures x == y
  {
    assert x == (x + multiset{e}) - multiset{e};
    assert y == (y + multiset{e}) - multiset{e};
  }

  lemma WithoutIt<T>(s: seq<T>, i: nat)
    requires i < |s|
    ensures multiset(s) == multiset(s[..i] + s[i + 1..]) + multiset{s[i]}
  {
    assert s == s[..i] + [s[i]] + s[i + 1..];
  }

  /** Where the first element of one listing stands in another, which without it lists the rest. */
  lemma FirstFoundIn<T>(s: seq<T>, t: seq<T>) returns (i: nat)
    requires s != [] && multiset(s) == multiset(t)
    ensures i < |t| && t[i] == s[0] && multiset(s[1..]) == multiset(t[..i] + t[i + 1..])
  {
    assert s[0] in multiset(t);
    i :| 0 <= i < |t| && t[i] == s[0];
    assert s[..0] + s[1..] == s[1..];
    WithoutIt(s, 0);
    WithoutIt(t, i);
    Cancel(multiset(s[1..]), multiset(t[..i] + t[i + 1..]), s[0]);
  }

  /** The counts depend on the candidates with their multiplicity, not on their order. */
  lemma {:induction false} TurnedIgnoresOrder(all: seq<Candidate>, all': seq<Candidate>, cutoff: int, w: Window, maxAge: int)
    requires multiset(all) == multiset(all')
    ensures Turned(all, cutoff, w, maxAge) == Turned(all', cutoff, w, maxAge)
    decreases |all|
  {
    hide Turned, TurnedBy;
    if all == [] {
      assert |multiset(all')| == |all'| == 0;
    } else {
      var i := FirstFoundIn(all, all');
      assert all[..0] + all[1..] == all[1..];
      TurnedIgnoresOrder(all[1..], all'[..i] + all'[i + 1..], cutoff, w, maxAge);
      TurnedWithout(all, 0, cutoff, w, maxAge);
      TurnedWithout(all', i, cutoff, w, maxAge);
    }
  }

  /** The same for all that a window counts. */
  lemma CountsIgnoreOrder(
    all: seq<Candidate>, all': seq<Candidate>, cutoff: int, w: Window, enabled: bool, maxAge: int)
    requires multiset(all) == multiset(all') && DistinctInstants(all)
    ensures Counted(all, cutoff, w, enabled, maxAge) == Counted(all', cutoff, w, enabled, maxAge)
  {
    hide ValidateManifest, Turned;
    TurnedIgnoresOrder(all, all', cutoff, w, maxAge);
    assert forall c :: c in all <==> c in multiset(all);
    assert forall c :: c in all' <==> c in multiset(all');
    var own, own' := LastOwn(all, cutoff, w), LastOwn(all', cutoff, w);
    if own.Some? && own'.Some? {
      OneFinal(all, cutoff, w, own.value, own'.value);
    }
    assert (exists c | c in all :: For(c, w.day, FINAL)) <==> exists c | c in all' :: For(c, w.day, FINAL);
  }

  /** Whatever is selected holds exactly the hours its window asks for, read at the snapshot's instant. */
  lemma SelectedHours(all: seq<Candidate>, cutoff: int, w: Window, enabled: bool, maxAge: int, c: Candidate, r: Option<Code>)
    requires Right(all, cutoff, w, enabled, maxAge, Selected(c, r))
    ensures c.manifest.Some? && c.key.Key? && Ordinal(c.key.date) == w.day
    ensures c.manifest.value.requested == c.manifest.value.completed
         == Some(ExpectedHours(w.day, DateOf(cutoff), c.key.observed, w.role))
    ensures c.manifest.value.targetDate == Some(c.key.date)
    ensures c.payloadExists && c.manifest.value.rows.Some? && c.manifest.value.rows.value > 0
  {
  }

  function SelectedWindows(entries: seq<SelectedEntry>): multiset<Window> {
    if entries == [] then multiset{}
    else SelectedWindows(entries[..|entries| - 1]) + multiset{entries[|entries| - 1].window}
  }

  function MissingWindows(entries: seq<MissingEntry>): multiset<Window> {
    if entries == [] then multiset{}
    else MissingWindows(entries[..|entries| - 1]) + multiset{entries[|entries| - 1].window}
  }

  lemma WindowsAppend(s: seq<SelectedEntry>, x: SelectedEntry, m: seq<MissingEntry>, y: MissingEntry)
    ensures SelectedWindows(s + [x]) == SelectedWindows(s) + multiset{x.window}
    ensures MissingWindows(m + [y]) == MissingWindows(m) + multiset{y.window}
  {
    assert (s + [x])[..|s|] == s && (m + [y])[..|m|] == m;
  }

  lemma OneMore(a: multiset<Window>, b: multiset<Window>, w: Window)
    ensures a + multiset{w} + b == a + b + multiset{w}
    ensures a + (b + multiset{w}) == a + b + multiset{w}
  {
  }

  lemma OneMoreSelected(front: seq<Window>, outcomes: seq<Outcome>, w: Window, c: Candidate, r: Option<Code>)
    requires |front| == |outcomes|
    ensures SelectedWindows(SelectedOf(front + [w], outcomes + [Selected(c, r)]))
         == SelectedWindows(SelectedOf(front, outcomes)) + multiset{w}
    ensures MissingOf(front + [w], outcomes + [Selected(c, r)]) == MissingOf(front, outcomes)
  {
    OutcomesAppend(front, outcomes, w, Selected(c, r));
    hide SelectedOf, MissingOf, SelectedWindows;
    WindowsAppend(SelectedOf(front, outcomes), SelectedEntry(w, c, r), [], MissingEntry(w, Missing));
  }

  lemma OneMoreMissing(front: seq<Window>, outcomes: seq<Outcome>, w: Window, r: Code)
    requires |front| == |outcomes|
    ensures MissingWindows(MissingOf(front + [w], outcomes + [Absent(r)]))
         == MissingWindows(MissingOf(front, outcomes)) + multiset{w}
    ensures SelectedOf(front + [w], outcomes + [Absent(r)]) == SelectedOf(front, outcomes)
  {
    OutcomesAppend(front, outcomes, w, Absent(r));
    hide SelectedOf, MissingOf, MissingWindows;
    WindowsAppend([], SelectedEntry(w, Candidate(NoKey, None, false), None), MissingOf(front, outcomes), MissingEntry(w, r));
  }

  /** Every required window is accounted for once: as selected or as missing. */
  lemma {:induction false} OneEntryPerWindow(windows: seq<Window>, outcomes: seq<Outcome>)
    requires |windows| == |outcomes|
    ensures SelectedWindows(SelectedOf(windows, outcomes)) + MissingWindows(MissingOf(windows, outcomes)) == multiset(windows)
    decreases |windows|
  {
    hide SelectedOf, MissingOf, SelectedWindows, MissingWindows;
    if windows == [] {
      NothingListed();
    } else {
      var n := |windows| - 1;
      OneEntryPerWindow(windows[..n], outcomes[..n]);
      assert windows == windows[..n] + [windows[n]] && outcomes == outcomes[..n] + [outcomes[n]];
      OneEntryMore(windows[..n], outcomes[..n], windows[n], outcomes[n]);
    }
  }

  lemma NothingListed()
    ensures SelectedWindows(SelectedOf([], [])) == MissingWindows(MissingOf([], [])) == multiset{}
  {
  }

  lemma OneEntryMore(front: seq<Window>, outcomes: seq<Outcome>, w: Window, o: Outcome)
    requires |front| == |outcomes|
    requires SelectedWindows(SelectedOf(front, outcomes)) + MissingWindows(MissingOf(front, outcomes)) == multiset(front)
    ensures SelectedWindows(SelectedOf(front + [w], outcomes + [o])) + MissingWindows(MissingOf(front + [w], outcomes + [o]))
         == multiset(front + [w])
  {
    hide SelectedOf, MissingOf, SelectedWindows, MissingWindows;
    OneMore(SelectedWindows(SelectedOf(front, outcomes)), MissingWindows(MissingOf(front, outcomes)), w);
    match o
    case Selected(c, r) => OneMoreSelected(front, outcomes, w, c, r);
    case Absent(r) => OneMoreMissing(front, outcomes, w, r);
  }

  /** The run is DEGRADED (some PRELIMINARY was selected) exactly when some entry names a fallback reason. */
  lemma DegradedMeansFallback(all: seq<Candidate>, cutoff: int, w: Window, enabled: bool, maxAge: int, c: Candidate, r: Option<Code>)
    requires Right(all, cutoff, w, enabled, maxAge, Selected(c, r))
    ensures c.manifest.Some? && (c.manifest.value.snapshotType == PRELIMINARY <==> r.Some?)
    ensures r.None? <==> c.manifest.value.snapshotType == FINAL
  {
  }
}
