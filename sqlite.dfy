/** The SQLite database file and the `sqlite3` driver, as the executor sees
    them: whether the file exists, what a statement yields, what the catalog
    lists, and a log of every access, so that contracts can say which accesses
    an operation makes. SQL itself is not interpreted: what a statement yields
    is an oracle fixed when the database is described. */
module Sqlite {
  import opened Results

  /** A dynamically typed value of a result cell. A REAL is kept opaque, as
      its IEEE-754 bit pattern. */
  datatype Cell =
    | NullCell
    | IntCell(i: int)
    | RealCell(bits: bv64)
    | TextCell(s: string)
    | BlobCell(bytes: seq<bv8>)

  /** One column of a fetched row: its name in the cursor description and its value. */
  datatype Field = Field(name: string, value: Cell)

  /** A fetched row (`sqlite3.Row`), its columns in statement order. */
  type StoreRow = seq<Field>

  /** What executing one statement and fetching all its rows gives: the rows
      in the order the engine returns them, or the exception the driver raises. */
  datatype Answer = Rows(rows: seq<StoreRow>) | Raised(exc: Exc)

  /** One row of `sqlite_master` whose type is 'table'. */
  datatype CatalogEntry = CatalogEntry(name: string, sql: string)

  /** An observable access to the database. */
  datatype Access = Checked | Opened | Ran(sql: string) | Closed

  /** The statement that reads the table catalog. */
  const CatalogQuery := "SELECT name, sql FROM sqlite_master WHERE type='table';"

  /** The database at DB_PATH. */
  class Database {
    const path: string
    /** `os.path.exists(DB_PATH)` */
    const present: bool
    /** what `cursor.execute(sql)` followed by `cursor.fetchall()` yields */
    const answer: string -> Answer
    /** what the catalog query yields */
    const catalog: Result<seq<CatalogEntry>>
    /** every access made so far, oldest first */
    var log: seq<Access>
    /** connections opened and not yet closed */
    var openConnections: nat

    constructor (path: string, present: bool, answer: string -> Answer, catalog: Result<seq<CatalogEntry>>)
      ensures this.path == path && this.present == present
      ensures this.answer == answer && this.catalog == catalog
      ensures log == [] && openConnections == 0
    {
      this.path := path;
      this.present := present;
      this.answer := answer;
      this.catalog := catalog;
      log := [];
      openConnections := 0;
    }

    /** `os.path.exists(DB_PATH)` */
    method Exists() returns (b: bool)
      modifies this`log
      ensures b == present
      ensures log == old(log) + [Checked]
    {
      b := present;
      log := log + [Checked];
    }

    /** `sqlite3.connect(DB_PATH)` */
    method Connect()
      requires present
      modifies this`log, this`openConnections
      ensures log == old(log) + [Opened]
      ensures openConnections == old(openConnections) + 1
    {
      log := log + [Opened];
      openConnections := openConnections + 1;
    }

    /** `cursor.execute(sql)` then `cursor.fetchall()` on an open connection */
    method Execute(sql: string) returns (a: Answer)
      requires openConnections > 0
      modifies this`log
      ensures a == answer(sql)
      ensures log == old(log) + [Ran(sql)]
    {
      a := answer(sql);
      log := log + [Ran(sql)];
    }

    /** the catalog query, executed and fetched on an open connection */
    method ReadCatalog() returns (r: Result<seq<CatalogEntry>>)
      requires openConnections > 0
      modifies this`log
      ensures r == catalog
      ensures log == old(log) + [Ran(CatalogQuery)]
    {
      r := catalog;
      log := log + [Ran(CatalogQuery)];
    }

    /** `conn.close()` */
    method Close()
      requires openConnections > 0
      modifies this`log, this`openConnections
      ensures log == old(log) + [Closed]
      ensures openConnections == old(openConnections) - 1
    {
      log := log + [Closed];
      openConnections := openConnections - 1;
    }
  }
}
