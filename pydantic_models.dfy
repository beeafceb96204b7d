/** The request and response records of the query endpoint. */
module PydanticModels {
  import opened Results
  import opened Sqlite

  /** One key of a result row and the value stored under it. */
  datatype Entry = Entry(key: string, value: Cell)

  /** One result row, `Dict[str, Any]`: an ordered mapping whose entries stand
      in insertion order, the order in which they reach the JSON response. */
  type Row = seq<Entry>

  /** No key is stored twice. */
  predicate DistinctKeys(d: Row) {
    forall a, b :: 0 <= a < b < |d| ==> d[a].key != d[b].key
  }

  /** The keys of a mapping. */
  function KeySet(d: Row): set<string> {
    set k | 0 <= k < |d| :: d[k].key
  }

  /** The position of `key` in `d`, or |d| when it is not a key. */
  function KeyIndex(d: Row, key: string): (i: nat)
    ensures i <= |d|
    ensures i < |d| ==> d[i].key == key
    ensures forall k :: 0 <= k < i ==> d[k].key != key
  {
    if d == [] || d[0].key == key then 0
    else
      var m := KeyIndex(d[1..], key);
      assert forall k :: 1 <= k < |d| ==> d[k] == d[1..][k - 1];
      1 + m
  }

  /** In a mapping without repeated keys, each entry is found at its own place. */
  lemma KeyIndexAt(d: Row, i: nat)
    requires DistinctKeys(d) && i < |d|
    ensures KeyIndex(d, d[i].key) == i
  {
  }

  /** The body of a query request: the plain-English question. */
  datatype QueryRequest = QueryRequest(text: string)

  /** The response envelope: the SQL attempted, the rows, and the error.
      `data` and `error` default to None, as in the record declaration. */
  datatype QueryResponse = QueryResponse(
    sqlQuery: string,
    data: Option<seq<Row>> := None,
    error: Option<string> := None)

  /** A response built from the SQL text alone carries neither rows nor an error. */
  lemma ResponseDefaults(sql: string)
    ensures QueryResponse(sql).sqlQuery == sql
    ensures QueryResponse(sql).data == None && QueryResponse(sql).error == None
  {
  }
}
