/** What the rental transform means for the columns of its rows: where each written row comes from, which
    row of a group survives, what quarantine says about it, and when a batch is stopped. Stated without
    the sort key, the window or the SQL predicates they are computed with
    (staging/jobs/transform_silver_rental_history.py). */
module RentalMeaning {
  import opened Basics
  import opened RentalTransform

  // ---------------------------------------------------------------- which row of a group survives

  /** Dictionary order: a prefix, or smaller at the first difference. */
  ghost predicate NoLaterText(a: string, b: string) {
    a <= b || exists i :: DiffersAt(a, b, i) && a[i] < b[i]
  }

  predicate DiffersAt(a: string, b: string, i: int) {
    0 <= i < |a| && i < |b| && a[..i] == b[..i] && a[i] != b[i]
  }

  lemma {:induction false} NotLessIsNoLater(a: string, b: string)
    requires !TextLess(b, a)
    ensures NoLaterText(a, b)
    decreases |a|
  {
    if a != "" && b != "" {
      if a[0] == b[0] {
        NotLessIsNoLater(a[1..], b[1..]);
        assert a == [a[0]] + a[1..] && b == [b[0]] + b[1..];
        if i :| DiffersAt(a[1..], b[1..], i) && a[1..][i] < b[1..][i] {
          assert a[..i + 1] == [a[0]] + a[1..][..i] && b[..i + 1] == [b[0]] + b[1..][..i];
          assert DiffersAt(a, b, i + 1);
        }
      } else {
        assert DiffersAt(a, b, 0);
      }
    }
  }

  /** NULLS FIRST, ascending. */
  ghost predicate FirstText(a: Option<string>, b: Option<string>) {
    a.None? || (b.Some? && NoLaterText(a.value, b.value))
  }

  lemma {:induction false} EqualSoFar(a: seq<Cell>, b: seq<Cell>, i: nat)
    requires |a| == |b| && i < |a| && !KeyLess(a, b) && a[..i] == b[..i]
    ensures !CellLess(a[i], b[i])
    decreases i
  {
    if i > 0 {
      assert a[0] == a[..i][0] && b[0] == b[..i][0];
      assert a[1..][..i - 1] == a[..i][1..] && b[1..][..i - 1] == b[..i][1..];
      EqualSoFar(a[1..], b[1..], i - 1);
    }
  }

  lemma FirstByText(a: Option<string>, b: Option<string>)
    requires !CellLess(TextCell(b), TextCell(a))
    ensures FirstText(a, b)
  {
    if a.Some? && b.Some? {
      NotLessIsNoLater(a.value, b.value);
    }
  }

  lemma SurvivorKey(rows: set<SilverRow>, r: SilverRow, q: SilverRow, i: nat)
    requires r in Dedup(rows) && q in rows && q.bike == r.bike && q.rentAt == r.rentAt && i < 6
    requires SortKey(q)[..i] == SortKey(r)[..i]
    ensures !CellLess(SortKey(q)[i], SortKey(r)[i])
  {
    EqualSoFar(SortKey(q), SortKey(r), i);
  }

  /** Equal in all that was measured; the lineage may differ. */
  predicate SameRide(q: SilverRow, r: SilverRow) {
    && q.returnAt == r.returnAt && q.rentStation == r.rentStation && q.returnStation == r.returnStation
    && q.distance == r.distance
  }

  /** Of the rows of one (bike, rent time), the survivor has the earliest return, a missing return coming
      last; among equal returns the first rent station, a missing one coming first; then likewise return
      station, distance, source file and ingestion time. */
  lemma SurvivorIsBest(rows: set<SilverRow>, r: SilverRow, q: SilverRow)
    requires r in Dedup(rows) && q in rows && q.bike == r.bike && q.rentAt == r.rentAt
    ensures q.returnAt.Some? ==> r.returnAt.Some? && r.returnAt.value <= q.returnAt.value
    ensures q.returnAt == r.returnAt ==> FirstText(r.rentStation, q.rentStation)
    ensures q.returnAt == r.returnAt && q.rentStation == r.rentStation ==> FirstText(r.returnStation, q.returnStation)
    ensures q.returnAt == r.returnAt && q.rentStation == r.rentStation && q.returnStation == r.returnStation ==>
      r.distance.None? || (q.distance.Some? && r.distance.value <= q.distance.value)
    ensures SameRide(q, r) ==> FirstText(r.sourceFile, q.sourceFile)
    ensures SameRide(q, r) && q.sourceFile == r.sourceFile ==>
      r.ingestedAt.None? || (q.ingestedAt.Some? && r.ingestedAt.value <= q.ingestedAt.value)
  {
    hide Dedup, TextLess, KeyLess;
    SurvivorKey(rows, r, q, 0);
    if q.returnAt == r.returnAt {
      SurvivorKey(rows, r, q, 1);
      FirstByText(r.rentStation, q.rentStation);
      if q.rentStation == r.rentStation {
        SurvivorKey(rows, r, q, 2);
        FirstByText(r.returnStation, q.returnStation);
        if q.returnStation == r.returnStation {
          SurvivorKey(rows, r, q, 3);
          if q.distance == r.distance {
            SurvivorKey(rows, r, q, 4);
            FirstByText(r.sourceFile, q.sourceFile);
            if q.sourceFile == r.sourceFile {
              SurvivorKey(rows, r, q, 5);
            }
          }
        }
      }
    }
  }

  // ---------------------------------------------------------------- from Bronze to both tables

  /** The Bronze row b is the Silver row r, column by column. */
  predicate Shows(b: BronzeRow, r: SilverRow) {
    && b.bike == Some(r.bike) && b.rent == At(r.rentAt)
    && (match r.returnAt case Some(t) => b.ret == At(t) case None => !b.ret.At?)
    && r.distance == b.distance && r.rentStation == b.rentStation && r.returnStation == b.returnStation
    && r.partition == b.partition && r.sourceFile == b.sourceFile && r.ingestedAt == b.ingestedAt
  }

  ghost predicate ComesFrom(rows: set<BronzeRow>, r: SilverRow) {
    exists b :: b in rows && Shows(b, r)
  }

  lemma DedupComesFrom(rows: set<BronzeRow>, r: SilverRow)
    requires r in Dedup(TypedRows(rows))
    ensures ComesFrom(rows, r)
  {
    var b :| b in rows && b.bike.Some? && b.rent.At? && Typed(b) == r;
    assert Shows(b, r);
  }

  /** A clean row is a Bronze row whose return is not before its rent and whose distance is not negative. */
  lemma CleanMeans(rows: set<BronzeRow>, r: SilverRow)
    requires r in Clean(rows)
    ensures ComesFrom(rows, r)
    ensures r.returnAt.Some? ==> r.rentAt <= r.returnAt.value
    ensures r.distance.Some? ==> 0.0 <= r.distance.value
  {
    DedupComesFrom(rows, r);
  }

  /** A quarantined row is a Bronze row with at least one of the two faults, and says which it has. */
  lemma QuarantineMeans(rows: set<BronzeRow>, q: QuarantineRow)
    requires q in Quarantined(rows)
    ensures ComesFrom(rows, q.row)
    ensures q.returnBeforeRent <==> q.row.returnAt.Some? && q.row.returnAt.value < q.row.rentAt
    ensures q.negativeDistance <==> q.row.distance.Some? && q.row.distance.value < 0.0
    ensures q.returnBeforeRent || q.negativeDistance
  {
    DedupComesFrom(rows, q.row);
  }

  /** The row is in one of the two tables. */
  ghost predicate Kept(rows: set<BronzeRow>, r: SilverRow) {
    r in Clean(rows) || exists q | q in Quarantined(rows) :: q.row == r
  }

  lemma KeptIsDeduplicated(rows: set<BronzeRow>, r: SilverRow)
    ensures Kept(rows, r) <==> r in Dedup(TypedRows(rows))
  {
    if r in Dedup(TypedRows(rows)) && Violates(r) {
      assert QuarantineRow(r, ReturnBeforeRent(r), NegativeDistance(r)) in Quarantined(rows);
    }
  }

  /** Every Bronze row with a bike and a readable rent time is answered for: exactly one row of its bike
      and rent time is kept, in one of the two tables and never in both, and it is no worse than this
      row. Rows without a bike or rent time are dropped. */
  lemma EveryRideIsKeptOnce(rows: set<BronzeRow>, b: BronzeRow, row: SilverRow) returns (kept: SilverRow)
    requires Consistent(rows) && b in rows && Shows(b, row)
    ensures Kept(rows, kept) && kept.bike == row.bike && kept.rentAt == row.rentAt
    ensures forall r | Kept(rows, r) && r.bike == row.bike && r.rentAt == row.rentAt :: r == kept
    ensures !(kept in Clean(rows) && exists q | q in Quarantined(rows) :: q.row == kept)
    ensures row.returnAt.Some? ==> kept.returnAt.Some? && kept.returnAt.value <= row.returnAt.value
  {
    var typed := TypedRows(rows);
    TypedPartition(rows);
    assert Typed(b) == row && row in typed;
    KeepsExactlyOne(typed, row);
    kept :| kept in Dedup(typed) && SameStart(kept, row);
    KeptIsDeduplicated(rows, kept);
    SurvivorIsBest(typed, kept, row);
    forall r | Kept(rows, r) && r.bike == row.bike && r.rentAt == row.rentAt ensures r == kept {
      KeptIsDeduplicated(rows, r);
      assert SameStart(r, row);
    }
  }

  // ---------------------------------------------------------------- when a batch is stopped

  ghost predicate SomeDateIsUnreadable(rows: set<BronzeRow>) {
    exists b :: b in rows && (b.rent == Unreadable || b.ret == Unreadable)
  }

  ghost predicate ShareAbove(rows: set<BronzeRow>, limit: real) {
    var bad, kept := |Quarantined(rows)|, |Quarantined(rows)| + |Clean(rows)|;
    bad > 0 && bad as real / kept as real > limit
  }

  /** A batch is stopped for an unreadable date, or else because more than the given share of its kept
      rows is in quarantine, and for nothing else. */
  lemma StoppedIff(rows: set<BronzeRow>, maxRatio: real)
    requires Consistent(rows)
    ensures Transform(rows, maxRatio) == Err(ParseFailed) <==> SomeDateIsUnreadable(rows)
    ensures Transform(rows, maxRatio) == Err(TooManyViolations) <==> !SomeDateIsUnreadable(rows) && ShareAbove(rows, maxRatio)
    ensures !SomeDateIsUnreadable(rows) && !ShareAbove(rows, maxRatio) ==>
      Transform(rows, maxRatio) == Ok(Output(Clean(rows), Quarantined(rows)))
  {
    QuarantineIsPart(rows);
    QualityGateNeverFires(rows, maxRatio);
    hide Clean, Quarantined, UniqueEnough;
  }
}
