# QueryCraft text-to-SQL backend, modelled in Dafny

QueryCraft answers a plain-English question about a SQLite music database.
The backend has four parts, and this project models each one:

- the **AI service** (`backend/ai_service.py`). At load time it reads the table schema. A missing database gives a sentinel schema text. It then loads a local language model, or records that none is available. Per question it builds a fixed four-section prompt (Task, Database Schema, Question, SQL Query). It calls the model once, with a budget of 256 new tokens and the stop sequences `"\n\n"` and `";"`. It cleans up the output: append `;` if the text has none anywhere, then strip whitespace.
- the **database executor** (`backend/db_executor.py`). `get_db_schema` joins one `Table '<name>':\n<sql>\n` block per catalog table with newlines. `execute_query` has a gate, `sql.strip().upper().startswith("SELECT")`. The gate runs before any access to the database. Then comes the existence check, and then one connection that is closed on every path. An `sqlite3.Error` is re-raised as `ValueError("SQL execution error: ...")`; any other exception passes through. Each row becomes a column→value dictionary whose keys keep the column order.
- the **endpoint** (`backend/main.py`). `handle_query` never raises. Every exception becomes a `QueryResponse` with a stage-specific message.
- the **records** (`backend/pydantic_models.py`). `QueryRequest(text)` and `QueryResponse(sql_query, data = None, error = None)`.

Python exceptions are values: `Results.Result` holds either a value or an `Exc`, which is an exception class plus its message. The language model and SQLite are oracles. `Llm.LanguageModel` holds a fixed function from a call to generated text or an exception. `Sqlite.Database` holds whether the file exists, a fixed function from a statement to rows or an exception, and the table catalog. Both classes log every access, so contracts can say which calls an operation makes, in what order, and that it makes none at all. Result cells are a tagged union: null, integer, real (kept opaque as its bit pattern), text or bytes. A result row (`Dict[str, Any]`) is an ordered mapping: a sequence of key/value entries, no key twice, in insertion order. That is the order the keys reach the JSON response and the UI's table and chart.

Files: `results.dfy`, `text.dfy` (the Python `str` operations used, ASCII only), `sqlite.dfy`, `pydantic_models.dfy`, `db_executor.dfy`, `llm.dfy`, `ai_service.dfy`, `main.dfy`.

Points where the code's behaviour is easy to misread:

- The SELECT gate sits in `execute_query`, not in `get_sql_from_text`. A refused statement therefore reaches the client with `sql_query` filled in (`Main.RefusedStatementResponse`).
- The clean-up appends `;` only when the text has none anywhere. The result always contains a `;`, but it need not end with one (`AiService.TerminatorNeedNotBeLast`). Neither the clean-up nor the gate checks that the text is a single statement. The `sqlite3` driver's own rule that one call runs one statement belongs to the database's answer, which the model takes as given (`Sqlite.Database.Execute`).
- The clean-up appends before it strips, so trailing whitespace of the generated text stays in front of the appended `;`: `"SELECT 1 \n"` becomes `"SELECT 1 \n;"` (`AiService.TrailingSpaceBeforeTerminator`). Stripping first would give `"SELECT 1;"`. Since `;` is a stop sequence, the generated text usually has no `;`, so this is the common path.
- The gate is a plain prefix test. Statements chained after a leading SELECT pass it (`DbExecutor.SelectThenAnythingPasses`); whether the driver then runs them is the database's answer.

## Model

| member | source | states |
|---|---|---|
| Text.Strip | backend/ai_service.py:62 | `strip()` leaves no whitespace at either end, never lengthens the text, leaves an already stripped text unchanged, and keeps a final non-whitespace character in last place |
| Text.StripCharacterized | backend/ai_service.py:62 | `strip()` returns the unique slice whose cut-off ends are all whitespace and whose own ends are not |
| Text.StripKeepsCount | backend/ai_service.py:62 | `strip()` keeps every occurrence of each non-whitespace character |
| Text.StripAppended | backend/ai_service.py:59-62 | stripping a text with a non-whitespace character appended removes only its leading whitespace |
| Text.StripIgnoresPadding | backend/db_executor.py:31 | adding whitespace around a text does not change what `strip()` returns |
| Text.Upper | backend/db_executor.py:31 | `upper()` keeps the length and maps each character to its upper-case form, ASCII letters only |
| Text.Join | backend/db_executor.py:20 | `sep.join(parts)`: the parts with one separator between neighbours (stated by `Text.JoinAt` and `Text.JoinLength`) |
| Text.JoinAt | backend/db_executor.py:20 | in `sep.join(parts)` each part appears verbatim at its offset, preceded by the separator unless it is first, and the last part ends the text |
| Text.JoinLength | backend/db_executor.py:20 | `sep.join(parts)` is as long as all parts together plus one separator between each two neighbours |
| Sqlite.Database.constructor | backend/db_executor.py:6 | a database at a given path starts with an empty access log and no open connection |
| Sqlite.Database.Exists | backend/db_executor.py:34 | the existence check reports whether the file exists and logs the check |
| Sqlite.Database.Connect | backend/db_executor.py:37 | connecting opens one more connection and logs it |
| Sqlite.Database.Execute | backend/db_executor.py:43-45 | executing and fetching on an open connection returns the driver's answer for that statement and logs the statement |
| Sqlite.Database.ReadCatalog | backend/db_executor.py:19 | the catalog query returns the catalog and logs the query |
| Sqlite.Database.Close | backend/db_executor.py:50 | closing releases one connection and logs it |
| DbExecutor.PassesGate | backend/db_executor.py:31-32 | the gate `sql.strip().upper().startswith("SELECT")`; a passing text is at least six characters long (its full characterisation is `DbExecutor.GateIsKeywordPrefix`) |
| DbExecutor.GateIsKeywordPrefix | backend/db_executor.py:31-32 | a text passes the gate if and only if its first six characters after leading whitespace spell SELECT in any case |
| DbExecutor.GateIgnoresSuffix | backend/db_executor.py:31 | whatever is appended to a passing text, it still passes |
| DbExecutor.SelectThenAnythingPasses | backend/db_executor.py:31 | whitespace, then SELECT, then any text at all (chained statements included) passes the gate |
| DbExecutor.GateIgnoresPadding | backend/db_executor.py:31 | surrounding whitespace never changes the gate's verdict |
| DbExecutor.GateIgnoresCase | backend/db_executor.py:31 | two texts that differ only in letter case get the same verdict |
| DbExecutor.DeleteIsRefused | backend/db_executor.py:31-32 | `DELETE FROM Artist;` is refused |
| DbExecutor.LeadingProseIsRefused | backend/db_executor.py:31-32 | `Sure! SELECT COUNT(*) FROM Artist;` is refused because prose precedes the keyword |
| DbExecutor.FirstMatch | backend/db_executor.py:45 | a row looks a name up at the first column whose name equals it ignoring ASCII case; a column name always finds a match |
| DbExecutor.KeyOrder | backend/db_executor.py:45 | the keys `dict(row)` stores after reading some of `row.keys()`: no name twice, at most one per column read, every name read is there, and every key is a column name |
| DbExecutor.KeyOrderGrows | backend/db_executor.py:45 | reading more of `row.keys()` only adds keys at the end: the keys stored earlier keep their places |
| DbExecutor.FirstOccurrenceAppends | backend/db_executor.py:45 | the first column with a given name adds that name as the next key |
| DbExecutor.ToDict | backend/db_executor.py:45 | `dict(row)` stores no key twice, has exactly the row's column names as keys, and maps each to the value of the first column with that name ignoring case |
| DbExecutor.ToDictKeys | backend/db_executor.py:45 | the keys of `dict(row)`, in order, are the column names in order of first occurrence |
| DbExecutor.ToDictOrder | backend/db_executor.py:45 | of two column names, the one occurring first in the row stands first among the keys of `dict(row)` |
| DbExecutor.RepeatedColumnKeepsFirst | backend/db_executor.py:45 | two columns with the same name give one key, holding the first column's value |
| DbExecutor.ToDictDistinct | backend/db_executor.py:45 | when no two column names differ only in case, `dict(row)` holds every column, in column order, under its own name |
| DbExecutor.Records | backend/db_executor.py:45 | one dictionary per fetched row, in the order the driver returned them |
| DbExecutor.ExecuteOutcome | backend/db_executor.py:25-50 | a refused text gives `ValueError("Only SELECT queries are allowed.")`; a passing text against a missing file gives `FileNotFoundError`; an `sqlite3.Error` becomes `ValueError("SQL execution error: " + msg)`; any other driver exception passes through unchanged; rows come back only when the text passes, the file exists and the driver returns rows |
| DbExecutor.ExecuteAccesses | backend/db_executor.py:31-50 | a refused text touches nothing, not even the existence check; a connection is opened exactly when the text passes and the file exists; once opened it is closed last; only the given statement is run |
| DbExecutor.ExecuteQuery | backend/db_executor.py:25-50 | `execute_query` returns what `ExecuteOutcome` describes, makes exactly the accesses `ExecuteAccesses` lists, and leaves no connection open on any path |
| DbExecutor.ArtistQueryPasses | backend/db_executor.py:31 | `SELECT Name FROM Artist WHERE Name = 'AC/DC';` passes the gate |
| DbExecutor.SingleColumnRow | backend/db_executor.py:45 | a one-column row becomes the one-entry dictionary from its name to its value |
| DbExecutor.ArtistLookup | backend/db_executor.py:25-46 | when the store holds AC/DC, the artist lookup returns exactly one row `{"Name": "AC/DC"}` |
| DbExecutor.TableBlock | backend/db_executor.py:20 | one table's block `Table '<name>':\n<sql>\n` (its layout is stated by `DbExecutor.TableBlockFields`) |
| DbExecutor.Blocks | backend/db_executor.py:20 | one block per catalog entry, in catalog order |
| DbExecutor.SchemaText | backend/db_executor.py:20 | the schema string is empty exactly when the catalog is, and otherwise ends with a newline |
| DbExecutor.TableBlockFields | backend/db_executor.py:20 | a table block holds the table name and its SQL verbatim at fixed offsets, and ends with a newline eleven characters past their lengths |
| DbExecutor.SchemaListsEveryTable | backend/db_executor.py:20 | every catalog table's block appears in the schema string in catalog order, separated from the previous one by a newline |
| DbExecutor.SchemaOfSmallCatalogs | backend/db_executor.py:20 | an empty catalog gives `""`; a single table gives its block alone |
| DbExecutor.SchemaOutcome | backend/db_executor.py:8-23 | a missing file raises `FileNotFoundError`; a readable catalog gives the joined blocks; a failing catalog query propagates its exception |
| DbExecutor.SchemaAccesses | backend/db_executor.py:13-22 | `get_db_schema` first checks the file; it opens a connection exactly when the file exists, closes it exactly when the catalog query succeeds, and runs only the catalog query |
| DbExecutor.GetDbSchema | backend/db_executor.py:8-23 | `get_db_schema` returns what `SchemaOutcome` describes; it closes its connection on success but leaves it open when the catalog query raises |
| PydanticModels.ResponseDefaults | backend/pydantic_models.py:8-12 | a response built from its SQL text alone has `data` and `error` both None |
| Llm.LanguageModel.constructor | backend/ai_service.py:19-23 | a loaded model starts with no calls made |
| Llm.LanguageModel.Generate | backend/ai_service.py:56 | a generation returns the model's answer for that call and logs the call |
| AiService.SchemaAtLoad | backend/ai_service.py:10-14 | loading fails only on an exception other than `FileNotFoundError`; a missing database yields the schema "Error: Could not load schema." |
| AiService.MissingDatabaseStillLoads | backend/ai_service.py:10-14 | with no database file the service still loads, with the sentinel schema |
| AiService.Load | backend/ai_service.py:10-28 | load reads the schema (falling back to the sentinel), then keeps the model or None if it failed to load; it makes the accesses of `get_db_schema` and leaves a connection open only when the catalog query raised |
| AiService.Prompt | backend/ai_service.py:39-52 | the prompt is the fixed template text plus the schema and the question, in length |
| AiService.PromptLayout | backend/ai_service.py:39-52 | the prompt holds, in order, the Task heading, the Database Schema heading, the schema verbatim, the Question heading, the question verbatim and the SQL Query heading, then a final newline |
| AiService.PromptDeterminesQuestion | backend/ai_service.py:39-52 | for a fixed schema, the prompt determines the question |
| AiService.PromptDeterminesSchema | backend/ai_service.py:39-52 | for a fixed question, the prompt determines the schema |
| AiService.CleanUp | backend/ai_service.py:59-62 | the cleaned text always contains `;` and has no whitespace at either end; if the raw text had no `;` it is the raw text without its leading whitespace, followed by `;`; otherwise it is the raw text stripped, with nothing appended |
| AiService.TrailingSpaceBeforeTerminator | backend/ai_service.py:59-62 | `"SELECT 1 \n"` becomes `"SELECT 1 \n;"`: trailing whitespace stays in front of the appended `;` |
| AiService.CleanUpIdempotent | backend/ai_service.py:59-62 | cleaning up a cleaned-up text changes nothing |
| AiService.CleanUpFixpoints | backend/ai_service.py:59-62 | a text is left unchanged by the clean-up if and only if it contains `;` and has no whitespace at either end |
| AiService.CleanUpSemicolons | backend/ai_service.py:59-62 | the clean-up adds exactly one `;` when there was none and otherwise keeps the number of `;` unchanged |
| AiService.TerminatorNeedNotBeLast | backend/ai_service.py:59-62 | `SELECT 1; x` is left as it is, so the result does not always end with `;` |
| AiService.GenerationCall | backend/ai_service.py:56 | the generator is called on the prompt, with `max_new_tokens=256` and the stop sequences `"\n\n"` and `";"` |
| AiService.SqlFromText | backend/ai_service.py:30-65 | with no model it fails with `RuntimeError("AI model is not loaded. Cannot process query.")`; otherwise it succeeds exactly when the model does; a success contains `;` and is stripped; a model exception passes through unchanged |
| AiService.GetSqlFromText | backend/ai_service.py:30-65 | `get_sql_from_text` returns what `SqlFromText` describes. With a model it calls the model exactly once, on the prompt for the schema and question, with budget 256 and stops `"\n\n"`, `";"`. With no model it makes no call |
| Main.Dispatch | backend/main.py:33-55 | exactly one of `data` and `error` is set; a failed synthesis gives empty `sql_query` and no data; otherwise `sql_query` is the generated text; data is set exactly when execution returned rows, and then it is those rows |
| Main.DispatchMessages | backend/main.py:37-55 | a synthesis `RuntimeError` gets "AI Model Error: ", other synthesis exceptions get "AI Error: ", an execution `ValueError` keeps its message verbatim, and other execution exceptions get "Database Error: " |
| Main.NoExecutionAfterSynthesisFailure | backend/main.py:33-42 | after a synthesis failure the executor has no influence on the response |
| Main.HandleQuery | backend/main.py:27-55 | `handle_query` sets exactly one of `data` and `error`; `sql_query` is the generated text, or empty when synthesis failed; rows come only from a present database that answered with rows, converted by `dict(row)` |
| Main.HandleQueryEnvelope | backend/main.py:27-55 | every response has rows or an error but not both; `sql_query` is empty exactly when synthesis failed; rows come back exactly when the generated text passes the gate and the database returns rows |
| Main.NoModelResponse | backend/main.py:35-39 | without a model the response is `("", None, "AI Model Error: AI model is not loaded. Cannot process query.")` |
| Main.RefusedStatementResponse | backend/main.py:46-52 | a generated statement refused by the gate comes back with its text in `sql_query` and the error "Only SELECT queries are allowed." |
| Main.MissingDatabaseResponse | backend/main.py:53-55 | a generated SELECT against a missing database keeps its text and reports "Database Error: " plus the not-found message |
| Main.SqlFaultResponse | backend/main.py:50-52 | a generated SELECT that the database rejects keeps its text and reports "SQL execution error: " plus the driver's message |

## Left out

- Whitespace and case beyond ASCII: `strip()` is modelled on the ASCII whitespace Python recognises (space, `\t\n\v\f\r`, `\x1c`–`\x1f`). `upper()` is modelled on ASCII letters only. Unicode whitespace and case mappings that change length (such as `ß` to `SS`) are not modelled. On such text the gate's verdict itself can differ: `"\u00a0SELECT 1;"` (a no-break space first) and `"ſELECT 1;"` (a long s, which Python upper-cases to `S`) pass Python's `strip().upper().startswith("SELECT")`, but `DbExecutor.PassesGate` refuses both.
- DbExecutor.FirstMatch: `sqlite3.Row`'s name lookup is modelled as folding the case of ASCII letters in any two names. Recent CPython versions ignore case in this lookup only when both names are entirely ASCII, so a name with a non-ASCII character that differs from a column name only in ASCII letter case is found by the model but not by CPython.
- Model loading and inference (`ctransformers`, the weights file, `context_length`): the model is an oracle from a call to text or an exception. `AiService.Load` takes the outcome of loading as a parameter.
- Sampling randomness: the generator is a fixed function of its call, so the model gives the same response to the same request against the same database. `get_sql_from_text` sets no sampling parameters, and repeated calls to the real model need not agree.
- SQL semantics, parsing and the engine: what a statement yields is an oracle fixed per database. `cursor.execute` and `fetchall` are one step. Setting `row_factory` and creating cursors are not logged.
- A failure of `sqlite3.connect` on a file that exists is not modelled: a present file always opens. Such an exception would reach the endpoint as "Database Error: ".
- Catalog rows whose `sql` column is NULL are not modelled: catalog entries carry text.
- CPython's reference counting, which in practice closes the connection `get_db_schema` leaves open when its catalog query raises, is not modelled; the model keeps the connection counted as open.
- `print` logging, the FastAPI application object, routing, CORS, the root endpoint, `async`, request validation and JSON serialisation of cells: transport and presentation.
- Exception classes: the model distinguishes RuntimeError, ValueError, FileNotFoundError, sqlite3.Error and any other Exception, which are all the endpoint and executor tell apart. BaseException outside Exception is not modelled.
- The Streamlit UI, the database setup script and the model download script: presentation, network and file-system work outside the backend.

