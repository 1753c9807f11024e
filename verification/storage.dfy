/** `RatesStorage` (valutatrade_hub/parser_service/storage.py): the rates
    snapshot and the append-only rates history. */
module Storage {
  import opened Json
  import opened Errors
  import opened Store

  class RatesStorage {
    const db: Database

    constructor(db: Database)
      ensures this.db == db
    {
      this.db := db;
    }

    /** `write_snapshot(pairs)`: the whole rates document is replaced by the
        given pairs, stamped with the storage's own clock reading `now`;
        nothing of the old document survives. */
    method WriteSnapshot(pairs: map<string, Json>, now: string)
      modifies db
      ensures db.rates == RatesDoc(pairs, Some(now))
      ensures db.history == old(db.history)
      ensures db.users == old(db.users) && db.portfolios == old(db.portfolios)
    {
      db.rates := RatesDoc(pairs, Some(now));
    }

    /** `append_history(records)`: the old history stays as a prefix and the
        new records follow it, in order. */
    method AppendHistory(records: seq<HistoryRecord>)
      modifies db
      ensures db.history == old(db.history) + records
      ensures db.rates == old(db.rates)
      ensures db.users == old(db.users) && db.portfolios == old(db.portfolios)
    {
      var history := db.history;
      history := history + records;
      db.history := history;
    }
  }
}
