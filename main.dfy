/** The query endpoint: turn a question into SQL, run it, and map every
    failure into the response envelope instead of raising. */
module Main {
  import opened Results
  import opened Sqlite
  import opened PydanticModels
  import opened DbExecutor
  import opened AiService

  const AiModelErrorPrefix := "AI Model Error: "
  const AiErrorPrefix := "AI Error: "
  const DatabaseErrorPrefix := "Database Error: "

  /** The body of `handle_query` given what the synthesis step returned or
      raised and what executing a statement returns or raises. `execute` is
      consulted only once synthesis has succeeded, and only on its text. */
  function Dispatch(synthesis: Result<string>, execute: string -> Result<seq<Row>>): (r: QueryResponse)
    ensures (r.data == None) != (r.error == None)
    ensures synthesis.Err? ==> r.sqlQuery == "" && r.data == None
    ensures synthesis.Ok? ==> r.sqlQuery == synthesis.value
    ensures r.data.Some? <==> synthesis.Ok? && execute(synthesis.value).Ok?
    ensures r.data.Some? ==> r.data.value == execute(synthesis.value).value
  {
    match synthesis
    case Err(e) =>
      if e.kind == RuntimeError then QueryResponse("", error := Some(AiModelErrorPrefix + e.msg))
      else QueryResponse("", error := Some(AiErrorPrefix + e.msg))
    case Ok(sql) =>
      match execute(sql)
      case Ok(data) => QueryResponse(sql, data := Some(data))
      case Err(e) =>
        if e.kind == ValueError then QueryResponse(sql, error := Some(e.msg))
        else QueryResponse(sql, error := Some(DatabaseErrorPrefix + e.msg))
  }

  /** Each failure is reported with the prefix of the stage that raised it:
      "AI Model Error: " for a RuntimeError of synthesis, "AI Error: " for
      any other synthesis exception, the bare message for a ValueError of
      execution and "Database Error: " for any other execution exception. */
  lemma DispatchMessages(synthesis: Result<string>, execute: string -> Result<seq<Row>>)
    ensures var r := Dispatch(synthesis, execute);
      (synthesis.Err? && synthesis.error.kind == RuntimeError ==>
         r.error == Some(AiModelErrorPrefix + synthesis.error.msg)) &&
      (synthesis.Err? && synthesis.error.kind != RuntimeError ==>
         r.error == Some(AiErrorPrefix + synthesis.error.msg)) &&
      (synthesis.Ok? && execute(synthesis.value).Err? && execute(synthesis.value).error.kind == ValueError ==>
         r.error == Some(execute(synthesis.value).error.msg)) &&
      (synthesis.Ok? && execute(synthesis.value).Err? && execute(synthesis.value).error.kind != ValueError ==>
         r.error == Some(DatabaseErrorPrefix + execute(synthesis.value).error.msg))
  {
  }

  /** When synthesis fails the executor plays no part in the response. */
  lemma NoExecutionAfterSynthesisFailure(e: Exc, execute1: string -> Result<seq<Row>>, execute2: string -> Result<seq<Row>>)
    ensures Dispatch(Err(e), execute1) == Dispatch(Err(e), execute2)
  {
  }

  /** `handle_query(request)` against the loaded service and the database. */
  function HandleQuery(svc: Service, db: Database, request: QueryRequest): (r: QueryResponse)
    ensures (r.data == None) != (r.error == None)
    ensures var s := SqlFromText(svc.schema, svc.llm, request.text);
      r.sqlQuery == (if s.Ok? then s.value else "")
    ensures r.data.Some? ==>
      db.present && db.answer(r.sqlQuery).Rows? && r.data.value == Records(db.answer(r.sqlQuery).rows)
  {
    Dispatch(SqlFromText(svc.schema, svc.llm, request.text), sql => ExecuteOutcome(db, sql))
  }

  /** Every response carries either rows or an error, never both; its SQL is
      empty exactly when synthesis failed, and it carries rows exactly when
      the generated text passed the gate and the database returned rows. */
  lemma HandleQueryEnvelope(svc: Service, db: Database, request: QueryRequest)
    ensures var r, s := HandleQuery(svc, db, request), SqlFromText(svc.schema, svc.llm, request.text);
      (r.data == None) != (r.error == None) &&
      (r.sqlQuery == "" <==> s.Err?) &&
      (r.data.Some? <==> s.Ok? && PassesGate(s.value) && db.present && db.answer(s.value).Rows?)
  {
    var s := SqlFromText(svc.schema, svc.llm, request.text);
    if s.Ok? {
      assert ';' in s.value;
    }
  }

  /** Without a model the response is the fixed model error, and the database is not consulted. */
  lemma NoModelResponse(svc: Service, db: Database, request: QueryRequest)
    requires svc.llm.None?
    ensures HandleQuery(svc, db, request) == QueryResponse("", None, Some(AiModelErrorPrefix + NotLoaded))
  {
  }

  /** A generated statement that the gate refuses comes back with its text
      in `sql_query` and "Only SELECT queries are allowed." as the error. */
  lemma RefusedStatementResponse(svc: Service, db: Database, request: QueryRequest, sql: string)
    requires SqlFromText(svc.schema, svc.llm, request.text) == Ok(sql)
    requires !PassesGate(sql)
    ensures HandleQuery(svc, db, request) == QueryResponse(sql, None, Some(SelectOnly))
  {
  }

  /** A generated SELECT against a missing database keeps its text and reports
      "Database Error: " followed by the not-found message. */
  lemma MissingDatabaseResponse(svc: Service, db: Database, request: QueryRequest, sql: string)
    requires SqlFromText(svc.schema, svc.llm, request.text) == Ok(sql)
    requires PassesGate(sql) && !db.present
    ensures HandleQuery(svc, db, request) == QueryResponse(sql, None, Some(DatabaseErrorPrefix + NotFound(db.path)))
  {
  }

  /** A generated SELECT that the database rejects keeps its text and reports
      "SQL execution error: " followed by the driver's message. */
  lemma SqlFaultResponse(svc: Service, db: Database, request: QueryRequest, sql: string, msg: string)
    requires SqlFromText(svc.schema, svc.llm, request.text) == Ok(sql)
    requires PassesGate(sql) && db.present
    requires db.answer(sql) == Raised(Exc(SqliteError, msg))
    ensures HandleQuery(svc, db, request) == QueryResponse(sql, None, Some(SqlErrorPrefix + msg))
  {
  }
}
