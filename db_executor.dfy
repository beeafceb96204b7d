/** The database side of the service: the schema string handed to the
    language model, and the execution of a generated statement behind the
    SELECT-only gate. */
module DbExecutor {
  import opened Results
  import opened Text
  import opened Sqlite
  import opened PydanticModels

  const SelectOnly := "Only SELECT queries are allowed."
  const SqlErrorPrefix := "SQL execution error: "
  const Keyword := "SELECT"

  /** The message of the FileNotFoundError raised by `execute_query`. */
  function NotFound(path: string): string {
    "Database not found at " + path + "."
  }

  /** The message of the FileNotFoundError raised by `get_db_schema`. */
  function SchemaNotFound(path: string): string {
    "Database not found at " + path + ". Did you run `python database/setup_database.py`?"
  }

  // ---------------------------------------------------------------------------
  // The gate

  /** The gate of `execute_query`: `sql.strip().upper().startswith("SELECT")`. */
  predicate PassesGate(sql: string)
    ensures PassesGate(sql) ==> |Keyword| <= |sql|
  {
    StartsWith(Upper(Strip(sql)), Keyword)
  }

  /** The gate read directly off the text: after the leading whitespace come
      six characters that spell SELECT in any letter case. */
  predicate BeginsWithSelect(sql: string) {
    var i := LeadingSpaces(sql);
    i + 6 <= |sql| && Upper(sql[i..i + 6]) == Keyword
  }

  /** The gate is exactly a case-insensitive keyword test at the first
      non-whitespace character: nothing after the keyword is looked at. */
  lemma GateIsKeywordPrefix(sql: string)
    ensures PassesGate(sql) <==> BeginsWithSelect(sql)
  {
    var i := LeadingSpaces(sql);
    var r := Strip(sql);
    if PassesGate(sql) {
      assert i < |sql|;
      var j := TrailingStart(sql);
      assert r == sql[i..j];
      assert forall k :: 0 <= k < 6 ==> Upper(r)[k] == Keyword[k];
      assert Upper(sql[i..i + 6]) == Keyword;
    }
    if BeginsWithSelect(sql) {
      assert UpperChar(sql[i + 5]) == Upper(sql[i..i + 6])[5] == 'T';
      var j := TrailingStart(sql);
      assert r == sql[i..j];
      assert forall k :: 0 <= k < 6 ==> Upper(r)[k] == Upper(sql[i..i + 6])[k];
      assert Upper(r)[..6] == Keyword;
    }
  }

  /** A text that passes the gate still passes with anything appended to it:
      statements chained after a SELECT are not seen by the gate. */
  lemma GateIgnoresSuffix(sql: string, rest: string)
    requires PassesGate(sql)
    ensures PassesGate(sql + rest)
  {
    GateIsKeywordPrefix(sql);
    var i := LeadingSpaces(sql);
    var s := sql + rest;
    assert s[i] == sql[i];
    assert forall k :: 0 <= k < i ==> s[k] == sql[k];
    LeadingSpacesUnique(s, i);
    assert s[i..i + 6] == sql[i..i + 6];
    GateIsKeywordPrefix(s);
  }

  /** Whitespace around the text does not change the gate's verdict. */
  lemma GateIgnoresPadding(front: string, sql: string, back: string)
    requires AllSpace(front) && AllSpace(back)
    ensures PassesGate(front + sql + back) == PassesGate(sql)
  {
    StripIgnoresPadding(front, sql, back);
  }

  /** The letter case of the text does not change the gate's verdict. */
  lemma GateIgnoresCase(a: string, b: string)
    requires SameIgnoringCase(a, b)
    ensures PassesGate(a) == PassesGate(b)
  {
    forall k | 0 <= k < |a| ensures IsSpace(a[k]) == IsSpace(b[k]) {
      SpaceIgnoresCase(a[k], b[k]);
    }
    var i := LeadingSpaces(a);
    LeadingSpacesUnique(b, i);
    if i + 6 <= |a| {
      assert Upper(a[i..i + 6]) == Upper(b[i..i + 6]);
    }
    GateIsKeywordPrefix(a);
    GateIsKeywordPrefix(b);
  }

  /** Six characters that spell SELECT in any letter case, as the gate reads them. */
  lemma KeywordAt(s: string, i: nat)
    requires i + 6 <= |s|
    requires forall k :: 0 <= k < 6 ==> UpperChar(s[i + k]) == Keyword[k]
    ensures Upper(s[i..i + 6]) == Keyword
  {
    forall k | 0 <= k < 6 ensures Upper(s[i..i + 6])[k] == Keyword[k] {
      assert s[i..i + 6][k] == s[i + k];
    }
  }

  /** A statement that deletes rows is refused. */
  lemma DeleteIsRefused()
    ensures !PassesGate("DELETE FROM Artist;")
  {
    var s := "DELETE FROM Artist;";
    assert s[0] == 'D';
    LeadingSpacesUnique(s, 0);
    assert Upper(s[0..6])[0] == UpperChar(s[0]) == 'D';
    GateIsKeywordPrefix(s);
  }

  /** Prose before the SELECT makes the gate refuse an otherwise readable statement. */
  lemma LeadingProseIsRefused()
    ensures !PassesGate("Sure! SELECT COUNT(*) FROM Artist;")
  {
    var s := "Sure! SELECT COUNT(*) FROM Artist;";
    assert s[0] == 'S' && s[1] == 'u';
    LeadingSpacesUnique(s, 0);
    assert Upper(s[0..6])[1] == UpperChar(s[1]) == 'U';
    GateIsKeywordPrefix(s);
  }

  /** Whitespace, the keyword, then anything at all: the gate lets it through,
      whatever statements follow the keyword. */
  lemma SelectThenAnythingPasses(front: string, rest: string)
    requires AllSpace(front)
    ensures PassesGate(front + Keyword + rest)
  {
    var s := front + Keyword + rest;
    var i := |front|;
    assert forall k :: 0 <= k < i ==> s[k] == front[k];
    assert forall k :: 0 <= k < 6 ==> s[i + k] == Keyword[k];
    LeadingSpacesUnique(s, i);
    KeywordAt(s, i);
    GateIsKeywordPrefix(s);
  }

  // ---------------------------------------------------------------------------
  // Row conversion

  /** The position of the first column whose name equals `key` ignoring ASCII
      case, or |row| if there is none: how `sqlite3.Row` looks up a name. */
  function FirstMatch(row: StoreRow, key: string): (i: nat)
    ensures i <= |row|
    ensures i < |row| ==> SameIgnoringCase(row[i].name, key)
    ensures forall k :: 0 <= k < i ==> !SameIgnoringCase(row[k].name, key)
    ensures (exists k :: 0 <= k < |row| && SameIgnoringCase(row[k].name, key)) ==> i < |row|
  {
    if row == [] then 0
    else if SameIgnoringCase(row[0].name, key) then 0
    else
      var m := FirstMatch(row[1..], key);
      assert forall k :: 1 <= k < |row| ==> row[k] == row[1..][k - 1];
      1 + m
  }

  /** The column names of a row. */
  function Names(row: StoreRow): set<string> {
    set k | 0 <= k < |row| :: row[k].name
  }

  /** The keys `dict(row)` stores after reading the first `n` names of
      `row.keys()`: each name once, in the order of its first occurrence. */
  function KeyOrder(row: StoreRow, n: nat): (keys: seq<string>)
    requires n <= |row|
    ensures |keys| <= n
    ensures forall a, b :: 0 <= a < b < |keys| ==> keys[a] != keys[b]
  {
    if n == 0 then []
    else
      var keys := KeyOrder(row, n - 1);
      if row[n - 1].name in keys then keys else keys + [row[n - 1].name]
  }

  /** Every name read is among the keys. */
  lemma {:induction false} KeyOrderHasEveryName(row: StoreRow, n: nat, k: nat)
    requires k < n <= |row|
    ensures row[k].name in KeyOrder(row, n)
  {
    if k < n - 1 {
      KeyOrderHasEveryName(row, n - 1, k);
    }
  }

  /** `row[key]`: the value of the first column whose name equals `key`
      ignoring case. Only keys taken from the row's own names are looked up,
      and those always match; the NULL for a missing name is never used. */
  function Lookup(row: StoreRow, key: string): Cell {
    var i := FirstMatch(row, key);
    if i < |row| then row[i].value else NullCell
  }

  /** `dict(row)`: one key per column name, in the order the names first occur
      in the row, each mapped to the value of the first column with that name,
      ignoring case. */
  function ToDict(row: StoreRow): (d: Row)
    ensures DistinctKeys(d)
    ensures KeySet(d) == Names(row)
    ensures forall i :: 0 <= i < |d| ==>
      FirstMatch(row, d[i].key) < |row| && d[i].value == row[FirstMatch(row, d[i].key)].value
  {
    var keys := KeyOrder(row, |row|);
    var d := seq(|keys|, i requires 0 <= i < |keys| => Entry(keys[i], Lookup(row, keys[i])));
    forall i | 0 <= i < |keys| ensures FirstMatch(row, keys[i]) < |row| {
      KeyOrderFrom(row, |row|, i);
      var k :| 0 <= k < |row| && row[k].name == keys[i];
      assert SameIgnoringCase(row[k].name, keys[i]);
    }
    assert KeySet(d) == Names(row) by {
      forall x | x in Names(row) ensures x in KeySet(d) {
        var k :| 0 <= k < |row| && row[k].name == x;
        KeyOrderHasEveryName(row, |row|, k);
        var i :| 0 <= i < |keys| && keys[i] == x;
        assert d[i].key == x;
      }
      forall x | x in KeySet(d) ensures x in Names(row) {
        var i :| 0 <= i < |d| && d[i].key == x;
        KeyOrderFrom(row, |row|, i);
      }
    }
    d
  }

  /** Reading more names only adds keys at the end. */
  lemma {:induction false} KeyOrderGrows(row: StoreRow, m: nat, n: nat)
    requires m <= n <= |row|
    ensures |KeyOrder(row, m)| <= |KeyOrder(row, n)|
    ensures KeyOrder(row, n)[..|KeyOrder(row, m)|] == KeyOrder(row, m)
    decreases n
  {
    if m < n {
      KeyOrderGrows(row, m, n - 1);
      var before, after := KeyOrder(row, n - 1), KeyOrder(row, n);
      assert after == before || after == before + [row[n - 1].name];
      assert after[..|before|] == before;
      assert after[..|KeyOrder(row, m)|] == before[..|KeyOrder(row, m)|];
    }
  }

  /** The first column that carries a name adds that name as the next key. */
  lemma FirstOccurrenceAppends(row: StoreRow, a: nat)
    requires a < |row|
    requires forall k :: 0 <= k < a ==> row[k].name != row[a].name
    ensures KeyOrder(row, a + 1) == KeyOrder(row, a) + [row[a].name]
  {
    var keys := KeyOrder(row, a);
    if row[a].name in keys {
      var i :| 0 <= i < |keys| && keys[i] == row[a].name;
      KeyOrderFrom(row, a, i);
    }
  }

  /** A key stored after `n` names is one of those `n` names. */
  lemma {:induction false} KeyOrderFrom(row: StoreRow, n: nat, i: nat)
    requires n <= |row| && i < |KeyOrder(row, n)|
    ensures exists k :: 0 <= k < n && row[k].name == KeyOrder(row, n)[i]
  {
    var keys := KeyOrder(row, n - 1);
    if i < |keys| {
      KeyOrderFrom(row, n - 1, i);
    } else {
      assert KeyOrder(row, n)[i] == row[n - 1].name;
    }
  }

  /** The keys of `dict(row)` are the names in first-occurrence order. */
  lemma ToDictKeys(row: StoreRow)
    ensures |ToDict(row)| == |KeyOrder(row, |row|)|
    ensures forall i :: 0 <= i < |ToDict(row)| ==> ToDict(row)[i].key == KeyOrder(row, |row|)[i]
  {
  }

  /** The first column that carries a name puts that name among the keys
      right after the keys of the columns before it. */
  lemma FirstOccurrenceAt(row: StoreRow, a: nat)
    requires a < |row|
    requires forall k :: 0 <= k < a ==> row[k].name != row[a].name
    ensures |KeyOrder(row, a)| < |KeyOrder(row, |row|)|
    ensures KeyOrder(row, |row|)[|KeyOrder(row, a)|] == row[a].name
  {
    var before, next, all := KeyOrder(row, a), KeyOrder(row, a + 1), KeyOrder(row, |row|);
    FirstOccurrenceAppends(row, a);
    KeyOrderGrows(row, a + 1, |row|);
    PrefixEndsWith(all, next, before, row[a].name);
  }

  /** A sequence that begins with `pre + [x]` holds `x` right after `pre`. */
  lemma PrefixEndsWith(s: seq<string>, start: seq<string>, pre: seq<string>, x: string)
    requires |start| <= |s| && s[..|start|] == start && start == pre + [x]
    ensures |pre| < |s| && s[|pre|] == x
  {
    assert s[|pre|] == s[..|start|][|pre|];
  }

  /** Keys stand in the order their names first occur among the columns. */
  lemma ToDictOrder(row: StoreRow, a: nat, b: nat)
    requires a < b < |row|
    requires forall k :: 0 <= k < a ==> row[k].name != row[a].name
    requires forall k :: 0 <= k < b ==> row[k].name != row[b].name
    ensures var d := ToDict(row); KeyIndex(d, row[a].name) < KeyIndex(d, row[b].name) < |d|
  {
    FirstOccurrenceAt(row, a);
    FirstOccurrenceAt(row, b);
    FirstOccurrenceAppends(row, a);
    KeyOrderGrows(row, a + 1, b);
    var ia, ib := |KeyOrder(row, a)|, |KeyOrder(row, b)|;
    assert ia < ib;
    ToDictKeys(row);
    var d := ToDict(row);
    KeyIndexAt(d, ia);
    KeyIndexAt(d, ib);
  }

  /** When no two column names differ only in case, `dict(row)` holds every
      column, in column order, under its own name. */
  lemma ToDictDistinct(row: StoreRow)
    requires forall a, b :: 0 <= a < b < |row| ==> !SameIgnoringCase(row[a].name, row[b].name)
    ensures |ToDict(row)| == |row|
    ensures forall i :: 0 <= i < |row| ==> ToDict(row)[i] == Entry(row[i].name, row[i].value)
  {
    DistinctKeyOrder(row, |row|);
    forall i | 0 <= i < |row| ensures FirstMatch(row, row[i].name) == i {
      assert SameIgnoringCase(row[i].name, row[i].name);
    }
  }

  /** With no two names alike, every name read is a new key. */
  lemma {:induction false} DistinctKeyOrder(row: StoreRow, n: nat)
    requires n <= |row|
    requires forall a, b :: 0 <= a < b < |row| ==> !SameIgnoringCase(row[a].name, row[b].name)
    ensures KeyOrder(row, n) == seq(n, i requires 0 <= i < n => row[i].name)
  {
    if n > 0 {
      DistinctKeyOrder(row, n - 1);
      forall k | 0 <= k < n - 1 ensures row[k].name != row[n - 1].name {
        assert !SameIgnoringCase(row[k].name, row[n - 1].name);
      }
    }
  }

  /** A column whose name repeats an earlier one adds no key: the earlier
      column's value is the one kept. */
  lemma RepeatedColumnKeepsFirst(name: string, first: Cell, second: Cell)
    ensures ToDict([Field(name, first), Field(name, second)]) == [Entry(name, first)]
  {
    var row := [Field(name, first), Field(name, second)];
    assert SameIgnoringCase(name, name);
    assert KeyOrder(row, 1) == [name];
    assert KeyOrder(row, 2) == [name];
  }

  /** `[dict(row) for row in cursor.fetchall()]`. */
  function Records(rows: seq<StoreRow>): (r: seq<Row>)
    ensures |r| == |rows|
    ensures forall i :: 0 <= i < |rows| ==> r[i] == ToDict(rows[i])
  {
    seq(|rows|, i requires 0 <= i < |rows| => ToDict(rows[i]))
  }

  // ---------------------------------------------------------------------------
  // execute_query

  /** What `execute_query(sql)` returns or raises against `db`. */
  function ExecuteOutcome(db: Database, sql: string): (r: Result<seq<Row>>)
    ensures !PassesGate(sql) ==> r == Err(Exc(ValueError, SelectOnly))
    ensures PassesGate(sql) && !db.present ==> r == Err(Exc(FileNotFoundError, NotFound(db.path)))
    ensures r.Ok? <==> PassesGate(sql) && db.present && db.answer(sql).Rows?
    ensures r.Ok? ==> r.value == Records(db.answer(sql).rows)
    ensures PassesGate(sql) && db.present && db.answer(sql).Raised? && db.answer(sql).exc.kind == SqliteError ==>
      r == Err(Exc(ValueError, SqlErrorPrefix + db.answer(sql).exc.msg))
    ensures PassesGate(sql) && db.present && db.answer(sql).Raised? && db.answer(sql).exc.kind != SqliteError ==>
      r == Err(db.answer(sql).exc)
  {
    if !PassesGate(sql) then Err(Exc(ValueError, SelectOnly))
    else if !db.present then Err(Exc(FileNotFoundError, NotFound(db.path)))
    else match db.answer(sql)
      case Rows(rows) => Ok(Records(rows))
      case Raised(e) => if e.kind == SqliteError then Err(Exc(ValueError, SqlErrorPrefix + e.msg)) else Err(e)
  }

  /** The accesses `execute_query(sql)` makes, in order. */
  function ExecuteAccesses(present: bool, sql: string): (a: seq<Access>)
    ensures a == [] <==> !PassesGate(sql)
    ensures Opened in a <==> PassesGate(sql) && present
    ensures Opened in a ==> a[|a| - 1] == Closed && Ran(sql) in a
    ensures forall q :: Ran(q) in a ==> q == sql
  {
    if !PassesGate(sql) then []
    else if !present then [Checked]
    else [Checked, Opened, Ran(sql), Closed]
  }

  /** `execute_query`: gate first, then the existence check, then one
      connection that is closed again whatever the statement does. */
  method ExecuteQuery(db: Database, sql: string) returns (r: Result<seq<Row>>)
    modifies db
    ensures r == ExecuteOutcome(db, sql)
    ensures db.log == old(db.log) + ExecuteAccesses(db.present, sql)
    ensures db.openConnections == old(db.openConnections)
  {
    ghost var before := db.log;
    if !PassesGate(sql) {
      return Err(Exc(ValueError, SelectOnly));
    }
    var found := db.Exists();
    if !found {
      return Err(Exc(FileNotFoundError, NotFound(db.path)));
    }
    db.Connect();
    var answer := db.Execute(sql);
    match answer {
      case Rows(rows) =>
        r := Ok(Records(rows));
      case Raised(e) =>
        r := if e.kind == SqliteError then Err(Exc(ValueError, SqlErrorPrefix + e.msg)) else Err(e);
    }
    db.Close();
    assert db.log == before + [Checked, Opened, Ran(sql), Closed];
  }

  /** The query of the example database that looks up one artist by name. */
  const ArtistQuery := Keyword + " Name FROM Artist WHERE Name = 'AC/DC';"

  /** The artist lookup passes the gate. */
  lemma ArtistQueryPasses()
    ensures PassesGate(ArtistQuery)
  {
    SelectThenAnythingPasses("", " Name FROM Artist WHERE Name = 'AC/DC';");
    assert "" + ArtistQuery == ArtistQuery;
  }

  /** A one-column row becomes the one-entry mapping from that column's name to its value. */
  lemma SingleColumnRow(name: string, value: Cell)
    ensures ToDict([Field(name, value)]) == [Entry(name, value)]
  {
    ToDictDistinct([Field(name, value)]);
  }

  /** Against a database whose Artist table holds AC/DC, the lookup yields
      exactly one row, {"Name": "AC/DC"}. */
  lemma ArtistLookup(db: Database)
    requires db.present
    requires db.answer(ArtistQuery) == Rows([[Field("Name", TextCell("AC/DC"))]])
    ensures ExecuteOutcome(db, ArtistQuery) == Ok([[Entry("Name", TextCell("AC/DC"))]])
  {
    ArtistQueryPasses();
    var row := [Field("Name", TextCell("AC/DC"))];
    SingleColumnRow("Name", TextCell("AC/DC"));
    assert Records([row]) == [ToDict(row)];
  }

  // ---------------------------------------------------------------------------
  // get_db_schema

  /** One catalog entry as it appears in the schema string. */
  function TableBlock(e: CatalogEntry): string {
    "Table '" + e.name + "':\n" + e.sql + "\n"
  }

  function Blocks(entries: seq<CatalogEntry>): (b: seq<string>)
    ensures |b| == |entries|
    ensures forall k :: 0 <= k < |entries| ==> b[k] == TableBlock(entries[k])
  {
    seq(|entries|, k requires 0 <= k < |entries| => TableBlock(entries[k]))
  }

  /** The schema string: the table blocks joined by newlines. */
  function SchemaText(entries: seq<CatalogEntry>): (s: string)
    ensures entries == [] <==> s == ""
    ensures entries != [] ==> s[|s| - 1] == '\n'
  {
    var b := Blocks(entries);
    var s := Join("\n", b);
    assert entries != [] ==> |s| > 0 && s[|s| - 1] == '\n' by {
      if entries != [] {
        var k := |b| - 1;
        var o := JoinOffset("\n", b, k);
        JoinAt("\n", b, k);
        TableBlockFields(entries[k]);
        assert s[o .. o + |b[k]|] == b[k];
        assert s[|s| - 1] == b[k][|b[k]| - 1];
      }
    }
    s
  }

  /** A table block holds the table's name and its SQL verbatim, at fixed
      offsets, and ends with a newline eleven characters past their lengths. */
  lemma TableBlockFields(e: CatalogEntry)
    ensures var t := TableBlock(e);
      |t| == 11 + |e.name| + |e.sql| && t[|t| - 1] == '\n' &&
      t[7 .. 7 + |e.name|] == e.name && t[10 + |e.name| .. 10 + |e.name| + |e.sql|] == e.sql
  {
    var t := TableBlock(e);
    assert t == "Table '" + e.name + "':\n" + e.sql + "\n";
    assert forall k :: 0 <= k < |e.name| ==> t[7 + k] == e.name[k];
    assert forall k :: 0 <= k < |e.sql| ==> t[10 + |e.name| + k] == e.sql[k];
  }

  /** Every table of the catalog appears in the schema string, in catalog
      order, with its name and its SQL verbatim; consecutive blocks are
      separated by a newline. */
  lemma SchemaListsEveryTable(entries: seq<CatalogEntry>, k: nat)
    requires k < |entries|
    ensures var o := JoinOffset("\n", Blocks(entries), k); var s := SchemaText(entries);
      o + |TableBlock(entries[k])| <= |s| &&
      s[o .. o + |TableBlock(entries[k])|] == TableBlock(entries[k]) &&
      (k > 0 ==> s[o - 1] == '\n')
  {
    var b := Blocks(entries);
    assert SchemaText(entries) == Join("\n", b);
    assert b[k] == TableBlock(entries[k]);
    JoinNewlineAt(b, k);
  }

  /** An empty catalog gives an empty schema string; a single table gives its block alone. */
  lemma SchemaOfSmallCatalogs(e: CatalogEntry)
    ensures SchemaText([]) == ""
    ensures SchemaText([e]) == TableBlock(e)
  {
    assert Blocks([e]) == [TableBlock(e)];
  }

  /** What `get_db_schema()` returns or raises against `db`. */
  function SchemaOutcome(db: Database): (r: Result<string>)
    ensures !db.present ==> r == Err(Exc(FileNotFoundError, SchemaNotFound(db.path)))
    ensures db.present && db.catalog.Ok? ==> r == Ok(SchemaText(db.catalog.value))
    ensures db.present && db.catalog.Err? ==> r == Err(db.catalog.error)
  {
    if !db.present then Err(Exc(FileNotFoundError, SchemaNotFound(db.path)))
    else match db.catalog
      case Ok(entries) => Ok(SchemaText(entries))
      case Err(e) => Err(e)
  }

  /** The accesses `get_db_schema()` makes. The close is skipped when the
      catalog query raises, since that function has no `finally`. */
  function SchemaAccesses(present: bool, catalogReadable: bool): (a: seq<Access>)
    ensures |a| > 0 && a[0] == Checked
    ensures Opened in a <==> present
    ensures Closed in a <==> present && catalogReadable
    ensures forall q :: Ran(q) in a ==> q == CatalogQuery
  {
    if !present then [Checked]
    else [Checked, Opened, Ran(CatalogQuery)] + (if catalogReadable then [Closed] else [])
  }

  /** `get_db_schema`. */
  method GetDbSchema(db: Database) returns (r: Result<string>)
    modifies db
    ensures r == SchemaOutcome(db)
    ensures db.log == old(db.log) + SchemaAccesses(db.present, db.catalog.Ok?)
    ensures db.openConnections == old(db.openConnections) + (if db.present && db.catalog.Err? then 1 else 0)
  {
    var found := db.Exists();
    if !found {
      return Err(Exc(FileNotFoundError, SchemaNotFound(db.path)));
    }
    db.Connect();
    var catalog := db.ReadCatalog();
    match catalog {
      case Err(e) =>
        return Err(e);
      case Ok(entries) =>
        r := Ok(SchemaText(entries));
    }
    db.Close();
  }
}
