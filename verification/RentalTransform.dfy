/** The Silver rental-history transform: typing, missing-value removal, the row_number()
    de-duplication and the quarantine split (staging/jobs/transform_silver_rental_history.py).

    A table that was read is a set of rows here. EngineAgrees shows that nothing is lost: reading
    order and repeated identical rows cannot change what survives. Times are microseconds. */
module RentalTransform {
  import opened Basics
  import opened BackfillPlan
  import opened IcebergTable

  /** A Bronze date string after the known formats were tried. Blank text is not a parse failure. */
  datatype Stamp = NoText | Unreadable | At(micros: int)

  datatype BronzeRow = BronzeRow(
    bike: Option<string>, rent: Stamp, ret: Stamp, distance: Option<real>,
    rentStation: Option<string>, returnStation: Option<string>,
    partition: Day, sourceFile: Option<string>, ingestedAt: Option<int>)

  datatype SilverRow = SilverRow(
    bike: string, rentAt: int, returnAt: Option<int>, distance: Option<real>,
    rentStation: Option<string>, returnStation: Option<string>,
    partition: Day, sourceFile: Option<string>, ingestedAt: Option<int>)

  /** A quarantined row with the reasons the SQL concatenates. */
  datatype QuarantineRow = QuarantineRow(row: SilverRow, returnBeforeRent: bool, negativeDistance: bool)

  datatype Output = Output(clean: set<SilverRow>, quarantine: set<QuarantineRow>)

  datatype TransformError = ParseFailed | TooManyViolations | QualityFailed

  // ---------------------------------------------------------------- the ORDER BY of the window

  /** One ORDER BY cell; a null sits below or above every value, as each key declares. */
  datatype Cell = NullFirst | Number(n: int) | Decimal(x: real) | Text(s: string) | NullLast

  function Kind(c: Cell): nat {
    match c
    case NullFirst => 0
    case Number(_) => 1
    case Decimal(_) => 2
    case Text(_) => 3
    case NullLast => 4
  }

  predicate TextLess(a: string, b: string) {
    b != "" && (a == "" || a[0] < b[0] || (a[0] == b[0] && TextLess(a[1..], b[1..])))
  }

  predicate CellLess(a: Cell, b: Cell) {
    if Kind(a) != Kind(b) then Kind(a) < Kind(b)
    else
      match a
      case Number(n) => n < b.n
      case Decimal(x) => x < b.x
      case Text(s) => TextLess(s, b.s)
      case _ => false
  }

  predicate KeyLess(a: seq<Cell>, b: seq<Cell>) {
    b != [] && (a == [] || CellLess(a[0], b[0]) || (a[0] == b[0] && KeyLess(a[1..], b[1..])))
  }

  function NumberCell(v: Option<int>): Cell {
    if v.None? then NullFirst else Number(v.value)
  }

  function TextCell(v: Option<string>): Cell {
    if v.None? then NullFirst else Text(v.value)
  }

  /** return_dt NULLS LAST, then five keys NULLS FIRST. */
  function SortKey(r: SilverRow): seq<Cell> {
    [ if r.returnAt.None? then NullLast else Number(r.returnAt.value),
      TextCell(r.rentStation),
      TextCell(r.returnStation),
      if r.distance.None? then NullFirst else Decimal(r.distance.value),
      TextCell(r.sourceFile),
      NumberCell(r.ingestedAt) ]
  }

  predicate Precedes(q: SilverRow, r: SilverRow) {
    KeyLess(SortKey(q), SortKey(r))
  }

  predicate SameStart(q: SilverRow, r: SilverRow) {
    q.bike == r.bike && q.rentAt == r.rentAt
  }

  lemma {:induction false} TextOrder(a: string, b: string, c: string)
    ensures !TextLess(a, a)
    ensures a == b || TextLess(a, b) || TextLess(b, a)
    ensures TextLess(a, b) && TextLess(b, c) ==> TextLess(a, c)
    decreases |a| + |b| + |c|
  {
    if a != "" {
      TextOrder(a[1..], if b == "" then "" else b[1..], if c == "" then "" else c[1..]);
      if b != "" && a[0] == b[0] && a[1..] == b[1..] {
        assert a == [a[0]] + a[1..] == b;
      }
    }
  }

  lemma CellOrder(a: Cell, b: Cell, c: Cell)
    ensures !CellLess(a, a)
    ensures a == b || CellLess(a, b) || CellLess(b, a)
    ensures CellLess(a, b) && CellLess(b, c) ==> CellLess(a, c)
  {
    if a.Text? {
      TextOrder(a.s, if b.Text? then b.s else "", if c.Text? then c.s else "");
    }
  }

  lemma {:induction false} KeyOrder(a: seq<Cell>, b: seq<Cell>, c: seq<Cell>)
    ensures !KeyLess(a, a)
    ensures a == b || KeyLess(a, b) || KeyLess(b, a)
    ensures KeyLess(a, b) && KeyLess(b, c) ==> KeyLess(a, c)
    decreases |a| + |b| + |c|
  {
    if a != [] {
      KeyOrder(a[1..], if b == [] then [] else b[1..], if c == [] then [] else c[1..]);
      CellOrder(a[0], if b == [] then a[0] else b[0], if c == [] then a[0] else c[0]);
      if b != [] {
        if a[0] == b[0] && a[1..] == b[1..] {
          assert a == [a[0]] + a[1..] == b;
        }
      }
    }
  }

  // ---------------------------------------------------------------- typing and de-duplication

  function Typed(r: BronzeRow): SilverRow
    requires r.bike.Some? && r.rent.At?
  {
    SilverRow(r.bike.value, r.rent.micros, if r.ret.At? then Some(r.ret.micros) else None, r.distance,
              r.rentStation, r.returnStation, r.partition, r.sourceFile, r.ingestedAt)
  }

  /** Rows that survive `bike_id IS NOT NULL AND rent_dt IS NOT NULL`. */
  function TypedRows(rows: set<BronzeRow>): set<SilverRow> {
    set r | r in rows && r.bike.Some? && r.rent.At? :: Typed(r)
  }

  predicate IsFirst(rows: set<SilverRow>, r: SilverRow) {
    r in rows && forall q | q in rows && SameStart(q, r) :: !Precedes(q, r)
  }

  /** row_number() = 1 over (bike_id, rent_dt). */
  function Dedup(rows: set<SilverRow>): set<SilverRow> {
    set r | r in rows && IsFirst(rows, r)
  }

  /** The premise the job documents: the rows of one de-duplication group share a partition date. */
  ghost predicate Consistent(rows: set<BronzeRow>) {
    forall q, r | q in rows && r in rows && q.rent.At? && q.rent == r.rent && q.bike == r.bike :: q.partition == r.partition
  }

  ghost predicate PartitionByTime(rows: set<SilverRow>) {
    forall q, r | q in rows && r in rows && SameStart(q, r) :: q.partition == r.partition
  }

  /** The six keys leave no freedom: two rows that could both be numbered 1 are the same row. */
  lemma TiesAreIdentical(rows: set<SilverRow>, q: SilverRow, r: SilverRow)
    requires PartitionByTime(rows) && IsFirst(rows, q) && IsFirst(rows, r) && SameStart(q, r)
    ensures q == r
  {
    KeyOrder(SortKey(q), SortKey(r), SortKey(q));
    var a, b := SortKey(q), SortKey(r);
    assert a == b;
    assert a[0] == b[0] && a[1] == b[1] && a[2] == b[2] && a[3] == b[3] && a[4] == b[4] && a[5] == b[5];
  }

  lemma {:induction false} FirstExists(group: set<SilverRow>) returns (m: SilverRow)
    requires group != {}
    ensures m in group && forall q | q in group :: !Precedes(q, m)
    decreases |group|
  {
    var x :| x in group;
    if group == {x} {
      m := x;
      KeyOrder(SortKey(x), SortKey(x), SortKey(x));
    } else {
      var rest := group - {x};
      var y := FirstExists(rest);
      m := if Precedes(x, y) then x else y;
      forall q | q in group ensures !Precedes(q, m) {
        KeyOrder(SortKey(q), SortKey(x), SortKey(y));
        assert q == x || (q in rest && !Precedes(q, y));
      }
    }
  }

  /** Every typed row's group keeps exactly one row. */
  lemma KeepsExactlyOne(rows: set<SilverRow>, q: SilverRow)
    requires PartitionByTime(rows) && q in rows
    ensures exists r :: r in Dedup(rows) && SameStart(r, q)
    ensures forall r, r' | r in Dedup(rows) && r' in Dedup(rows) && SameStart(r, q) && SameStart(r', q) :: r == r'
  {
    var group := set r | r in rows && SameStart(r, q);
    assert q in group;
    var m := FirstExists(group);
    assert IsFirst(rows, m);
    forall r, r' | r in Dedup(rows) && r' in Dedup(rows) && SameStart(r, q) && SameStart(r', q)
      ensures r == r'
    {
      TiesAreIdentical(rows, r, r');
    }
  }

  // ---------------------------------------------------------------- what an SQL engine may answer

  /** Any table an engine may return for the window query over `input`, whatever order it scanned
      and however it broke ties: from each group exactly one row, preceded by no other. */
  ghost predicate RowNumberOne(input: seq<SilverRow>, out: seq<SilverRow>) {
    OnePerGroup(Dedup(Elements(input)), Elements(input), out)
  }

  lemma {:induction false} DistinctSeq<T>(s: seq<T>)
    requires forall i, j | 0 <= i < j < |s| :: s[i] != s[j]
    ensures multiset(s) == multiset(Elements(s))
  {
    if s != [] {
      var init, x := s[..|s| - 1], s[|s| - 1];
      DistinctSeq(init);
      assert s == init + [x];
      assert x !in init;
      assert Elements(s) == Elements(init) + {x};
    }
  }

  lemma RepeatCounts<T>(s: seq<T>, i: nat, j: nat)
    requires i < j < |s| && s[i] == s[j]
    ensures multiset(s)[s[i]] >= 2
  {
    assert s == s[..j] + s[j..];
    assert s[..j][i] == s[i] && s[j..][0] == s[i];
    assert s[i] in multiset(s[..j]) && s[i] in multiset(s[j..]);
  }

  ghost predicate Lists(out: seq<SilverRow>, q: SilverRow) {
    exists i :: 0 <= i < |out| && SameStart(out[i], q)
  }

  /** `out` lists one row of `kept` for every group of `input`, and no group twice. */
  ghost predicate OnePerGroup(kept: set<SilverRow>, input: set<SilverRow>, out: seq<SilverRow>) {
    && (forall i | 0 <= i < |out| :: out[i] in kept)
    && (forall q | q in input :: Lists(out, q))
    && (forall i, j | 0 <= i < j < |out| :: !SameStart(out[i], out[j]))
  }

  /** `kept` holds exactly one representative of every group of `input`. */
  ghost predicate Represents(kept: set<SilverRow>, input: set<SilverRow>) {
    && kept <= input
    && (forall r, r' | r in kept && r' in kept && SameStart(r, r') :: r == r')
    && (forall q | q in input :: exists r :: r in kept && SameStart(r, q))
  }

  lemma ListingIsKept(kept: set<SilverRow>, input: set<SilverRow>, out: seq<SilverRow>)
    requires Represents(kept, input) && OnePerGroup(kept, input, out)
    ensures multiset(out) == multiset(kept)
  {
    DistinctSeq(out);
    forall r | r in kept ensures r in out {
      var i :| 0 <= i < |out| && SameStart(out[i], r);
    }
    assert Elements(out) == kept;
  }

  lemma KeptIsListing(kept: set<SilverRow>, input: set<SilverRow>, out: seq<SilverRow>)
    requires Represents(kept, input) && multiset(out) == multiset(kept)
    ensures OnePerGroup(kept, input, out)
  {
    forall i | 0 <= i < |out| ensures out[i] in kept {
      assert out[i] in multiset(out);
    }
    forall q | q in input ensures Lists(out, q) {
      var r :| r in kept && SameStart(r, q);
      assert r in multiset(out);
      var i :| 0 <= i < |out| && out[i] == r;
    }
    forall i, j | 0 <= i < j < |out| ensures !SameStart(out[i], out[j]) {
      if SameStart(out[i], out[j]) {
        RepeatCounts(out, i, j);
      }
    }
  }

  lemma DedupCovers(rows: set<SilverRow>)
    requires PartitionByTime(rows)
    ensures Represents(Dedup(rows), rows)
  {
    forall r, r' | r in Dedup(rows) && r' in Dedup(rows) && SameStart(r, r') ensures r == r' {
      TiesAreIdentical(rows, r, r');
    }
    forall q | q in rows ensures exists r :: r in Dedup(rows) && SameStart(r, q) {
      KeepsExactlyOne(rows, q);
    }
  }

  /** An engine's answer is legal exactly when it holds the rows of Dedup, each once. */
  lemma EngineAgrees(input: seq<SilverRow>, out: seq<SilverRow>)
    requires PartitionByTime(Elements(input))
    ensures RowNumberOne(input, out) <==> multiset(out) == multiset(Dedup(Elements(input)))
  {
    DedupCovers(Elements(input));
    var kept := Dedup(Elements(input));
    if RowNumberOne(input, out) {
      ListingIsKept(kept, Elements(input), out);
    }
    if multiset(out) == multiset(kept) {
      KeptIsListing(kept, Elements(input), out);
    }
  }

  lemma SameElements<T>(s: seq<T>, t: seq<T>)
    requires multiset(s) == multiset(t)
    ensures Elements(s) == Elements(t)
  {
    forall x ensures x in s <==> x in t {
      assert x in s <==> x in multiset(s);
      assert x in t <==> x in multiset(t);
    }
  }

  /** Any permutation of the input, read any number of times, yields the same rows. */
  lemma ReadOrderIrrelevant(first: seq<SilverRow>, again: seq<SilverRow>, out: seq<SilverRow>, out': seq<SilverRow>)
    requires PartitionByTime(Elements(first))
    requires multiset(first) == multiset(again)
    requires RowNumberOne(first, out) && RowNumberOne(again, out')
    ensures multiset(out) == multiset(out')
  {
    SameElements(first, again);
    EngineAgrees(first, out);
    EngineAgrees(again, out');
  }

  ghost predicate NoSharedGroup(a: seq<SilverRow>, b: seq<SilverRow>) {
    forall q, r | q in a && r in b :: !SameStart(q, r)
  }

  lemma WithoutOne<T>(out: seq<T>, i: nat)
    requires i < |out|
    ensures multiset(out) == multiset(out[..i] + out[i + 1..]) + multiset{out[i]}
  {
    assert out == out[..i] + ([out[i]] + out[i + 1..]);
    assert multiset(out) == multiset(out[..i]) + multiset([out[i]] + out[i + 1..]);
  }

  lemma PositionOf<T>(out: seq<T>, x: T) returns (i: nat)
    requires x in multiset(out)
    ensures i < |out| && out[i] == x
  {
    i :| 0 <= i < |out| && out[i] == x;
  }

  lemma TwoPositions<T>(out: seq<T>, x: T, y: T) returns (i: nat, j: nat)
    requires multiset{x, y} <= multiset(out)
    ensures i < |out| && j < |out| && i != j && out[i] == x && out[j] == y
  {
    assert x in multiset{x, y};
    i := PositionOf(out, x);
    WithoutOne(out, i);
    var others := out[..i] + out[i + 1..];
    assert multiset(others) == multiset(out) - multiset{x};
    assert y in multiset{x, y} - multiset{x};
    var k := PositionOf(others, y);
    j := if k < i then k else k + 1;
  }

  /** A group with rows on both sides of a cut is kept twice. */
  lemma SharedGroupIsKeptTwice(
    a: seq<SilverRow>, b: seq<SilverRow>, outA: seq<SilverRow>, outB: seq<SilverRow>, out: seq<SilverRow>,
    q: SilverRow, r: SilverRow)
    requires RowNumberOne(a, outA) && RowNumberOne(b, outB) && RowNumberOne(a + b, out)
    requires q in a && r in b && SameStart(q, r)
    ensures multiset(out) != multiset(outA + outB)
  {
    hide Dedup;
    assert q in Elements(a) && r in Elements(b);
    var i :| 0 <= i < |outA| && SameStart(outA[i], q);
    var j :| 0 <= j < |outB| && SameStart(outB[j], r);
    var x, y := outA[i], outB[j];
    assert x in multiset(outA) && y in multiset(outB);
    assert multiset(outA + outB) == multiset(outA) + multiset(outB);
    if multiset(out) == multiset(outA + outB) {
      var k, l := TwoPositions(out, x, y);
    }
  }

  lemma DedupSeparates(a: set<SilverRow>, b: set<SilverRow>)
    requires forall q, r | q in a && r in b :: !SameStart(q, r)
    ensures Dedup(a + b) == Dedup(a) + Dedup(b)
  {
    SymmetricStart();
    hide Precedes, SameStart;
    forall r | r in a ensures IsFirst(a, r) <==> IsFirst(a + b, r) {
    }
    forall r | r in b ensures IsFirst(b, r) <==> IsFirst(a + b, r) {
    }
  }

  lemma NoPairsAcross(outA: seq<SilverRow>, outB: seq<SilverRow>)
    requires forall i, j | 0 <= i < j < |outA| :: !SameStart(outA[i], outA[j])
    requires forall i, j | 0 <= i < j < |outB| :: !SameStart(outB[i], outB[j])
    requires forall i, j | 0 <= i < |outA| && 0 <= j < |outB| :: !SameStart(outA[i], outB[j])
    ensures forall i, j | 0 <= i < j < |outA + outB| :: !SameStart((outA + outB)[i], (outA + outB)[j])
  {
    hide SameStart;
    var out := outA + outB;
    forall i, j | 0 <= i < j < |out| ensures !SameStart(out[i], out[j]) {
      assert out[i] == if i < |outA| then outA[i] else outB[i - |outA|];
      assert out[j] == if j < |outA| then outA[j] else outB[j - |outA|];
    }
  }

  lemma ConcatenationLists(outA: seq<SilverRow>, outB: seq<SilverRow>, q: SilverRow)
    requires Lists(outA, q) || Lists(outB, q)
    ensures Lists(outA + outB, q)
  {
    hide SameStart;
    if Lists(outA, q) {
      var i :| 0 <= i < |outA| && SameStart(outA[i], q);
      assert (outA + outB)[i] == outA[i];
    } else {
      var j :| 0 <= j < |outB| && SameStart(outB[j], q);
      assert (outA + outB)[|outA| + j] == outB[j];
    }
  }

  lemma ListingsConcatenate(
    keptA: set<SilverRow>, a: set<SilverRow>, outA: seq<SilverRow>,
    keptB: set<SilverRow>, b: set<SilverRow>, outB: seq<SilverRow>)
    requires OnePerGroup(keptA, a, outA) && OnePerGroup(keptB, b, outB) && keptA <= a && keptB <= b
    requires forall q, r | q in a && r in b :: !SameStart(q, r)
    ensures OnePerGroup(keptA + keptB, a + b, outA + outB)
  {
    hide SameStart, Lists;
    NoPairsAcross(outA, outB);
    forall q | q in a + b ensures Lists(outA + outB, q) {
      ConcatenationLists(outA, outB, q);
    }
  }

  lemma SymmetricStart()
    ensures forall q, r :: SameStart(q, r) <==> SameStart(r, q)
  {
  }

  /** Cutting the input in two is safe exactly when no (bike, rent time) has rows on both sides. That a
      rent time fixes its partition is therefore a premise of chunking: promotion stamps a row with its
      collection's target date, whatever its rent time. */
  lemma CutIsSafeIff(a: seq<SilverRow>, b: seq<SilverRow>, outA: seq<SilverRow>, outB: seq<SilverRow>, out: seq<SilverRow>)
    requires PartitionByTime(Elements(a)) && PartitionByTime(Elements(b))
    requires RowNumberOne(a, outA) && RowNumberOne(b, outB) && RowNumberOne(a + b, out)
    ensures multiset(out) == multiset(outA + outB) <==> NoSharedGroup(a, b)
  {
    hide OnePerGroup, IsFirst, SameStart;
    if NoSharedGroup(a, b) {
      assert Elements(a + b) == Elements(a) + Elements(b);
      DedupSeparates(Elements(a), Elements(b));
      ListingsConcatenate(Dedup(Elements(a)), Elements(a), outA, Dedup(Elements(b)), Elements(b), outB);
      SymmetricStart();
      assert PartitionByTime(Elements(a + b));
      EngineAgrees(a + b, out);
      EngineAgrees(a + b, outA + outB);
    } else {
      var q, r :| q in a && r in b && SameStart(q, r);
      SharedGroupIsKeptTwice(a, b, outA, outB, out, q, r);
    }
  }

  // ---------------------------------------------------------------- quarantine and gates

  predicate ReturnBeforeRent(r: SilverRow) {
    r.returnAt.Some? && r.returnAt.value < r.rentAt
  }

  predicate NegativeDistance(r: SilverRow) {
    r.distance.Some? && r.distance.value < 0.0
  }

  predicate Violates(r: SilverRow) {
    ReturnBeforeRent(r) || NegativeDistance(r)
  }

  function Clean(rows: set<BronzeRow>): set<SilverRow> {
    set r | r in Dedup(TypedRows(rows)) && !Violates(r)
  }

  function Quarantined(rows: set<BronzeRow>): set<QuarantineRow> {
    set r | r in Dedup(TypedRows(rows)) && Violates(r)
         :: QuarantineRow(r, ReturnBeforeRent(r), NegativeDistance(r))
  }

  predicate HasUnreadable(rows: set<BronzeRow>) {
    exists r | r in rows :: r.rent.Unreadable? || r.ret.Unreadable?
  }

  /** The share of quarantined rows among the de-duplicated ones is above the limit. */
  predicate RatioExceeded(violations: nat, deduplicated: nat, maxRatio: real)
    requires violations > 0 ==> deduplicated > 0
  {
    violations > 0 && violations as real / deduplicated as real > maxRatio
  }

  /** hasUniqueness: rows whose key occurs once are at least 98% of all rows. */
  predicate UniqueEnough(rows: set<SilverRow>) {
    100 * |Unrepeated(rows)| >= 98 * |rows|
  }

  function Unrepeated(rows: set<SilverRow>): set<SilverRow> {
    set r | r in rows && (forall q | q in rows && SameStart(q, r) :: q == r)
  }

  /** The pure part of _process_range: what is written, or why nothing is. */
  function Transform(rows: set<BronzeRow>, maxRatio: real): Result<Output, TransformError> {
    if HasUnreadable(rows) then Err(ParseFailed)
    else if TooManyQuarantined(rows, maxRatio) then Err(TooManyViolations)
    else if !UniqueEnough(Clean(rows)) then Err(QualityFailed)
    else Ok(Output(Clean(rows), Quarantined(rows)))
  }

  predicate TooManyQuarantined(rows: set<BronzeRow>, maxRatio: real) {
    RatioExceeded(|Quarantined(rows)|, DedupCount(rows), maxRatio)
  }

  function DedupCount(rows: set<BronzeRow>): (n: nat)
    ensures n >= |Quarantined(rows)|
  {
    QuarantineIsPart(rows);
    |Dedup(TypedRows(rows))|
  }

  lemma QuarantineIsPart(rows: set<BronzeRow>)
    ensures |Quarantined(rows)| + |Clean(rows)| == |Dedup(TypedRows(rows))|
  {
    var all := Dedup(TypedRows(rows));
    var bad := set r | r in all && Violates(r);
    assert all == Clean(rows) + bad;
    ImageSize(bad);
    assert Quarantined(rows) == set r | r in bad :: QuarantineRow(r, ReturnBeforeRent(r), NegativeDistance(r));
  }

  lemma {:induction false} ImageSize(rows: set<SilverRow>)
    ensures |(set r | r in rows :: QuarantineRow(r, ReturnBeforeRent(r), NegativeDistance(r)))| == |rows|
    decreases |rows|
  {
    if rows != {} {
      var x :| x in rows;
      var rest := rows - {x};
      ImageSize(rest);
      var image := set r | r in rest :: QuarantineRow(r, ReturnBeforeRent(r), NegativeDistance(r));
      var qx := QuarantineRow(x, ReturnBeforeRent(x), NegativeDistance(x));
      assert qx !in image;
      assert (set r | r in rows :: QuarantineRow(r, ReturnBeforeRent(r), NegativeDistance(r))) == image + {qx};
    }
  }

  lemma TypedPartition(rows: set<BronzeRow>)
    requires Consistent(rows)
    ensures PartitionByTime(TypedRows(rows))
  {
  }

  /** The re-check after the transform can never stop a batch. */
  lemma QualityGateNeverFires(rows: set<BronzeRow>, maxRatio: real)
    requires Consistent(rows)
    ensures Transform(rows, maxRatio) != Err(QualityFailed)
  {
    var clean := Clean(rows);
    var typed := TypedRows(rows);
    TypedPartition(rows);
    forall q, r | q in clean && r in clean && SameStart(q, r) ensures q == r {
      TiesAreIdentical(typed, q, r);
    }
    assert Unrepeated(clean) == clean;
  }

  // ---------------------------------------------------------------- chunk independence

  /** The Bronze scan of a range of partitions. */
  function InRange(rows: set<BronzeRow>, start: Day, end: Day): set<BronzeRow> {
    set r | r in rows && start <= r.partition <= end
  }

  function PartitionOf(r: SilverRow): Day {
    r.partition
  }

  function QuarantinePartitionOf(q: QuarantineRow): Day {
    q.row.partition
  }

  /** A de-duplication group never straddles a cut between partitions. */
  lemma DedupIsLocal(rows: set<BronzeRow>, start: Day, end: Day)
    requires Consistent(rows)
    ensures Dedup(TypedRows(InRange(rows, start, end)))
         == set r | r in Dedup(TypedRows(rows)) && start <= r.partition <= end
  {
    var part, all := TypedRows(InRange(rows, start, end)), TypedRows(rows);
    TypedPartition(rows);
    forall r ensures r in part <==> r in all && start <= r.partition <= end {
    }
    forall r | r in part ensures IsFirst(part, r) <==> IsFirst(all, r) {
      forall q | q in all && SameStart(q, r) ensures q in part {
      }
    }
  }

  /** Whatever range a chunk covers, each of its days receives what processing that day alone gives. */
  lemma ChunkIndependence(rows: set<BronzeRow>, start: Day, end: Day, d: Day)
    requires Consistent(rows) && start <= d <= end
    ensures OnDay(Clean(InRange(rows, start, end)), PartitionOf, d) == Clean(InRange(rows, d, d))
    ensures OnDay(Quarantined(InRange(rows, start, end)), QuarantinePartitionOf, d) == Quarantined(InRange(rows, d, d))
  {
    DedupIsLocal(rows, start, end);
    DedupIsLocal(rows, d, d);
  }

  lemma RangeStaysInside(rows: set<BronzeRow>, start: Day, end: Day)
    ensures Within(Clean(InRange(rows, start, end)), PartitionOf, start, end)
    ensures Within(Quarantined(InRange(rows, start, end)), QuarantinePartitionOf, start, end)
  {
    forall r | r in TypedRows(InRange(rows, start, end)) ensures start <= r.partition <= end {
    }
  }

  /** Cutting a range anywhere gives the same clean and quarantine rows. */
  lemma SplitIndependence(rows: set<BronzeRow>, start: Day, cut: Day, end: Day)
    requires Consistent(rows) && start <= cut <= end
    ensures Clean(InRange(rows, start, end))
         == Clean(InRange(rows, start, cut)) + Clean(InRange(rows, cut + 1, end))
    ensures Quarantined(InRange(rows, start, end))
         == Quarantined(InRange(rows, start, cut)) + Quarantined(InRange(rows, cut + 1, end))
  {
    DedupIsLocal(rows, start, end);
    DedupIsLocal(rows, start, cut);
    DedupIsLocal(rows, cut + 1, end);
  }

  function CleanInPieces(rows: set<BronzeRow>, ranges: seq<Range>): set<SilverRow> {
    if ranges == [] then {}
    else Clean(InRange(rows, ranges[0].start, ranges[0].end)) + CleanInPieces(rows, ranges[1..])
  }

  function QuarantinedInPieces(rows: set<BronzeRow>, ranges: seq<Range>): set<QuarantineRow> {
    if ranges == [] then {}
    else Quarantined(InRange(rows, ranges[0].start, ranges[0].end)) + QuarantinedInPieces(rows, ranges[1..])
  }

  /** Any plan over the same days, in chunks of any lengths, gives the same clean and quarantine rows. */
  lemma {:induction false} AnySplitGivesTheSameRows(rows: set<BronzeRow>, ranges: seq<Range>, from: Day, to: Day)
    requires Consistent(rows) && Contiguous(ranges, from, to)
    ensures CleanInPieces(rows, ranges) == Clean(InRange(rows, from, to))
    ensures QuarantinedInPieces(rows, ranges) == Quarantined(InRange(rows, from, to))
    decreases |ranges|
  {
    hide Clean, Quarantined;
    if ranges == [] {
      assert InRange(rows, from, to) == {};
      EmptyInEmptyOut();
    } else if |ranges| == 1 {
      assert CleanInPieces(rows, ranges[1..]) == {} && QuarantinedInPieces(rows, ranges[1..]) == {};
    } else {
      Follows(ranges, from, to, 1);
      AnySplitGivesTheSameRows(rows, ranges[1..], ranges[0].end + 1, to);
      SplitIndependence(rows, from, ranges[0].end, to);
    }
  }

  /** The ratio gate depends on the cut, but only one way: a range whose parts pass also passes. */
  lemma PassingPartsPassTogether(rows: set<BronzeRow>, start: Day, cut: Day, end: Day, maxRatio: real)
    requires Consistent(rows) && start <= cut <= end
    requires Transform(InRange(rows, start, cut), maxRatio).Ok?
    requires Transform(InRange(rows, cut + 1, end), maxRatio).Ok?
    requires maxRatio >= 0.0
    ensures Transform(InRange(rows, start, end), maxRatio)
         == Ok(Output(Clean(InRange(rows, start, end)), Quarantined(InRange(rows, start, end))))
  {
    var left, right, whole := InRange(rows, start, cut), InRange(rows, cut + 1, end), InRange(rows, start, end);
    assert HasUnreadable(whole) ==> HasUnreadable(left) || HasUnreadable(right);
    RatiosAdd(rows, start, cut, end, maxRatio);
    QualityGateNeverFires(whole, maxRatio);
  }

  lemma AllBadIsStopped(rows: set<BronzeRow>, b: SilverRow)
    requires Dedup(TypedRows(rows)) == {b} && Violates(b) && !HasUnreadable(rows)
    ensures Transform(rows, 0.5) == Err(TooManyViolations)
  {
    hide Dedup, TypedRows, HasUnreadable;
    assert Quarantined(rows) == {QuarantineRow(b, ReturnBeforeRent(b), NegativeDistance(b))};
    assert |Dedup(TypedRows(rows))| == 1;
  }

  lemma HalfBadPasses(rows: set<BronzeRow>, b: SilverRow, g: SilverRow)
    requires Dedup(TypedRows(rows)) == {b, g} && Violates(b) && !Violates(g) && !HasUnreadable(rows)
    ensures Transform(rows, 0.5).Ok?
  {
    hide Dedup, TypedRows, HasUnreadable, Violates, SameStart;
    assert Quarantined(rows) == {QuarantineRow(b, ReturnBeforeRent(b), NegativeDistance(b))};
    assert Clean(rows) == {g};
    assert Unrepeated({g}) == {g};
    assert |Dedup(TypedRows(rows))| == |{b, g}| == 2;
  }

  /** The other way fails: a chunk can be stopped although the range around it passes. */
  lemma GateDependsOnTheCut() returns (rows: set<BronzeRow>)
    ensures Consistent(rows) && Transform(InRange(rows, 1, 2), 0.5).Ok?
    ensures Transform(InRange(rows, 1, 1), 0.5) == Err(TooManyViolations)
  {
    hide Transform, Dedup;
    var bad := BronzeRow(Some("a"), At(10), At(5), None, None, None, 1, None, None);
    var good := BronzeRow(Some("b"), At(20), NoText, None, None, None, 2, None, None);
    rows := {bad, good};
    assert InRange(rows, 1, 2) == rows && InRange(rows, 1, 1) == {bad};
    var b, g := Typed(bad), Typed(good);
    assert TypedRows({bad}) == {b} && TypedRows(rows) == {b} + {g};
    SingletonDedup(b);
    SingletonDedup(g);
    DedupSeparates({b}, {g});
    assert {b} + {g} == {b, g};
    AllBadIsStopped({bad}, b);
    HalfBadPasses(rows, b, g);
  }

  lemma SingletonDedup(r: SilverRow)
    ensures Dedup({r}) == {r}
  {
    KeyOrder(SortKey(r), SortKey(r), SortKey(r));
  }

  lemma RatiosAdd(rows: set<BronzeRow>, start: Day, cut: Day, end: Day, maxRatio: real)
    requires Consistent(rows) && start <= cut <= end && maxRatio >= 0.0
    requires !TooManyQuarantined(InRange(rows, start, cut), maxRatio)
    requires !TooManyQuarantined(InRange(rows, cut + 1, end), maxRatio)
    ensures !TooManyQuarantined(InRange(rows, start, end), maxRatio)
  {
    var left, right := InRange(rows, start, cut), InRange(rows, cut + 1, end);
    CountsAdd(rows, start, cut, end);
    Mediant(|Quarantined(left)|, DedupCount(left), |Quarantined(right)|, DedupCount(right), maxRatio);
  }

  lemma CountsAdd(rows: set<BronzeRow>, start: Day, cut: Day, end: Day)
    requires Consistent(rows) && start <= cut <= end
    ensures |Quarantined(InRange(rows, start, end))|
         == |Quarantined(InRange(rows, start, cut))| + |Quarantined(InRange(rows, cut + 1, end))|
    ensures DedupCount(InRange(rows, start, end))
         == DedupCount(InRange(rows, start, cut)) + DedupCount(InRange(rows, cut + 1, end))
  {
    SplitIndependence(rows, start, cut, end);
    RangeStaysInside(rows, start, cut);
    RangeStaysInside(rows, cut + 1, end);
    QuarantineIsPart(InRange(rows, start, cut));
    QuarantineIsPart(InRange(rows, cut + 1, end));
    QuarantineIsPart(InRange(rows, start, end));
    var left, right := Quarantined(InRange(rows, start, cut)), Quarantined(InRange(rows, cut + 1, end));
    assert forall q | q in left && q in right :: QuarantinePartitionOf(q) <= cut < QuarantinePartitionOf(q);
    assert left !! right;
    var left', right' := Clean(InRange(rows, start, cut)), Clean(InRange(rows, cut + 1, end));
    assert forall r | r in left' && r in right' :: PartitionOf(r) <= cut < PartitionOf(r);
    assert left' !! right';
  }

  lemma Mediant(v: nat, n: nat, v': nat, n': nat, limit: real)
    requires v <= n && v' <= n' && limit >= 0.0
    requires !RatioExceeded(v, n, limit) && !RatioExceeded(v', n', limit)
    ensures !RatioExceeded(v + v', n + n', limit)
  {
    WithinMeansProduct(v, n, limit);
    WithinMeansProduct(v', n', limit);
    WithinMeansProduct(v + v', n + n', limit);
    Distributes(limit, n as real, n' as real);
    hide RatioExceeded;
    assert (n + n') as real == n as real + n' as real;
  }

  lemma Distributes(x: real, y: real, z: real)
    ensures x * (y + z) == x * y + x * z
  {
  }

  lemma WithinMeansProduct(v: nat, n: nat, limit: real)
    requires v <= n && limit >= 0.0
    ensures !RatioExceeded(v, n, limit) <==> v as real <= limit * n as real
  {
    if v == 0 {
      NotNegative(limit, n as real);
    } else {
      var ratio := v as real / n as real;
      assert ratio * n as real == v as real;
      ScalesBy(ratio, n as real, limit);
    }
  }

  lemma NotNegative(x: real, y: real)
    requires x >= 0.0 && y >= 0.0
    ensures x * y >= 0.0
  {
  }

  lemma ScalesBy(x: real, n: real, limit: real)
    requires 0.0 < n
    ensures x <= limit <==> x * n <= limit * n
  {
    Distributes(n, limit, -x);
    if x <= limit {
      NotNegative(n, limit - x);
    } else {
      Positive(n, x - limit);
      Distributes(n, x, -limit);
    }
  }

  lemma Positive(x: real, y: real)
    requires x > 0.0 && y > 0.0
    ensures x * y > 0.0
  {
  }

  lemma EmptyInEmptyOut()
    ensures Clean({}) == {} && Quarantined({}) == {}
  {
  }
}
