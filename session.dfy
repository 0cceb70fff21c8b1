/** The database session the repositories of one unit of work share. It sees
    the committed tables plus its own pending writes; commit makes the
    pending writes durable, rollback and close drop them. Ids come from
    sequences, which a rollback does not rewind. */
module Sessions {
  import opened Store

  datatype SessionCall = Commit | Rollback | Close

  class Session {
    /** What queries in this session see: the committed rows and the pending writes. */
    var tables: Tables
    /** What has been committed. */
    var durable: Tables
    /** The next id the database hands out. */
    var nextId: int
    /** The transaction calls made on the session, in order. */
    var calls: seq<SessionCall>

    constructor (committed: Tables, nextId: int)
      ensures tables == committed && durable == committed
      ensures this.nextId == nextId && calls == []
    {
      tables := committed;
      durable := committed;
      this.nextId := nextId;
      calls := [];
    }

    /** Makes the pending writes durable. */
    method Commit()
      modifies this
      ensures durable == old(tables) && tables == old(tables)
      ensures nextId == old(nextId) && calls == old(calls) + [SessionCall.Commit]
    {
      durable := tables;
      calls := calls + [SessionCall.Commit];
    }

    /** Drops the pending writes. */
    method Rollback()
      modifies this
      ensures tables == old(durable) && durable == old(durable)
      ensures nextId == old(nextId) && calls == old(calls) + [SessionCall.Rollback]
    {
      tables := durable;
      calls := calls + [SessionCall.Rollback];
    }

    /** Ends the session; a transaction still open is rolled back. */
    method Close()
      modifies this
      ensures tables == old(durable) && durable == old(durable)
      ensures nextId == old(nextId) && calls == old(calls) + [SessionCall.Close]
    {
      tables := durable;
      calls := calls + [SessionCall.Close];
    }
  }
}
