/**
 * The database behind one psycopg2 connection, as an append-only store of
 * three tables. `committed` is what the database holds; `view` is what the
 * open transaction sees: the committed rows followed by the rows this
 * transaction inserted. Queries on the connection read `view`.
 */
module Store {
  import opened Records

  datatype Tables = Tables(prices: seq<PriceRow>, stats: seq<StatRow>, alerts: seq<AlertRow>)

  /** Each table of `b` is the same table of `a` with rows appended. */
  ghost predicate Extends(a: Tables, b: Tables)
  {
    a.prices <= b.prices && a.stats <= b.stats && a.alerts <= b.alerts
  }

  class Connection {
    var committed: Tables
    var view: Tables

    /**
     * Inside a transaction, rows are only ever appended: the committed tables
     * are a prefix of the view. Commit and Rollback rely on it to only ever
     * append to the durable tables and only ever discard appended rows.
     */
    ghost predicate Valid()
      reads this
    {
      Extends(committed, view)
    }

    /** `get_connection()`: a new connection, with no transaction work yet. */
    constructor (db: Tables)
      ensures Valid()
      ensures committed == db && view == db
    {
      committed := db;
      view := db;
    }

    /** `INSERT INTO prices ...` */
    method InsertPrice(row: PriceRow)
      requires Valid()
      modifies this
      ensures Valid()
      ensures view == old(view).(prices := old(view.prices) + [row])
      ensures committed == old(committed)
    {
      view := view.(prices := view.prices + [row]);
    }

    /** `INSERT INTO stats ...` */
    method InsertStat(row: StatRow)
      requires Valid()
      modifies this
      ensures Valid()
      ensures view == old(view).(stats := old(view.stats) + [row])
      ensures committed == old(committed)
    {
      view := view.(stats := view.stats + [row]);
    }

    /** `INSERT INTO alerts ...` */
    method InsertAlert(row: AlertRow)
      requires Valid()
      modifies this
      ensures Valid()
      ensures view == old(view).(alerts := old(view.alerts) + [row])
      ensures committed == old(committed)
    {
      view := view.(alerts := view.alerts + [row]);
    }

    /** `conn.commit()`: the transaction's rows become permanent; committed rows are kept. */
    method Commit()
      requires Valid()
      modifies this
      ensures Valid()
      ensures committed == old(view) && view == old(view)
      ensures Extends(old(committed), committed)
    {
      committed := view;
    }

    /** `conn.rollback()`: every row the transaction inserted is discarded, and only those. */
    method Rollback()
      requires Valid()
      modifies this
      ensures Valid()
      ensures view == old(committed) && committed == old(committed)
      ensures Extends(view, old(view))
    {
      view := committed;
    }
  }
}
