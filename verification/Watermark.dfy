/** The stored watermark cell (ingestion/common/watermark.py). */
module Watermark {
  import opened Basics

  /** The stored document: the standard field, and the one the first version of the job wrote. */
  datatype Payload = Payload(lastProcessed: Option<Day>, lastRent: Option<Day>)

  class Cell {
    const backfillStart: Day
    var payload: Option<Payload>

    constructor (backfillStart: Day)
      ensures this.backfillStart == backfillStart && payload == None
    {
      this.backfillStart := backfillStart;
      payload := None;
    }

    function Value(): Day
      reads this
    {
      if payload.None? then backfillStart
      else payload.value.lastProcessed.GetOr(payload.value.lastRent.GetOr(backfillStart))
    }

    method Read() returns (d: Day)
      ensures d == Value()
    {
      if payload.Some? {
        if payload.value.lastProcessed.Some? {
          return payload.value.lastProcessed.value;
        }
        if payload.value.lastRent.Some? {
          return payload.value.lastRent.value;
        }
      }
      return backfillStart;
    }

    /** Overwrites whatever is stored, in either format, and is read back as written. */
    method Write(d: Day)
      modifies this
      ensures payload == Some(Payload(Some(d), None)) && Value() == d
    {
      payload := Some(Payload(Some(d), None));
    }
  }
}
