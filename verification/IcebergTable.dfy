/** Range and partition replacement on an Iceberg table (ingestion/common/iceberg_io.py). Every
    commit is atomic. A table is a set of rows with a partition function. */
module IcebergTable {
  import opened Basics

  function OnDay<R>(rows: set<R>, part: R -> Day, d: Day): set<R> {
    set r | r in rows && part(r) == d
  }

  /** What an overwrite with a range filter leaves: the range is emptied, then `fresh` is added. */
  function ReplaceRange<R>(rows: set<R>, part: R -> Day, added: set<R>, start: Day, end: Day): set<R> {
    (set r | r in rows && !(start <= part(r) <= end)) + added
  }

  ghost predicate Within<R>(rows: set<R>, part: R -> Day, start: Day, end: Day) {
    forall r | r in rows :: start <= part(r) <= end
  }

  /** A replaced range holds the new rows day by day, also on days without any; other days keep theirs. */
  lemma ReplacedDay<R>(rows: set<R>, part: R -> Day, added: set<R>, start: Day, end: Day, d: Day)
    requires Within(added, part, start, end)
    ensures OnDay(ReplaceRange(rows, part, added, start, end), part, d)
         == if start <= d <= end then OnDay(added, part, d) else OnDay(rows, part, d)
  {
  }

  datatype WriteError = EmptyRange | RowOutsideRange

  class Table<R(==)> {
    const part: R -> Day
    var rows: set<R>

    constructor (part: R -> Day)
      ensures this.part == part && rows == {}
    {
      this.part := part;
      rows := {};
    }

    /** Rejects a reversed range and any row outside it before touching the table; otherwise replaces
        the declared range in one commit, deleting it when there is nothing to write. */
    method Replace(added: set<R>, start: Day, end: Day) returns (error: Option<WriteError>)
      modifies this
      ensures error == if start > end then Some(EmptyRange)
                       else if !Within(added, part, start, end) then Some(RowOutsideRange) else None
      ensures rows == if error.None? then ReplaceRange(old(rows), part, added, start, end) else old(rows)
    {
      if start > end {
        return Some(EmptyRange);
      }
      if added == {} {
        rows := set r | r in rows && !(start <= part(r) <= end);
        assert rows == ReplaceRange(old(rows), part, added, start, end);
        return None;
      }
      if exists r | r in added :: part(r) < start || part(r) > end {
        return Some(RowOutsideRange);
      }
      rows := (set r | r in rows && !(start <= part(r) <= end)) + added;
      return None;
    }

    /** overwrite_partition: an equality filter, so rows of other partitions are not rejected. */
    method OverwritePartition(added: set<R>, d: Day)
      modifies this
      ensures rows == ReplaceRange(old(rows), part, added, d, d)
    {
      rows := (set r | r in rows && !(d <= part(r) <= d)) + added;
    }
  }
}
