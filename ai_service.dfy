/** The text-to-SQL step: the process-wide schema and model set up at load
    time, the prompt, and the clean-up of what the model generates. */
module AiService {
  import opened Results
  import opened Text
  import opened Sqlite
  import opened DbExecutor
  import opened Llm

  const NotLoaded := "AI model is not loaded. Cannot process query."
  const SchemaUnavailable := "Error: Could not load schema."
  const MaxNewTokens := 256
  const StopSequences := ["\n\n", ";"]

  // ---------------------------------------------------------------------------
  // Load time

  /** The process-wide state set when the module is loaded: DB_SCHEMA and llm. */
  datatype Service = Service(schema: string, llm: Option<LanguageModel>)

  /** DB_SCHEMA from the outcome of `get_db_schema()`: a missing database
      degrades to a sentinel text, any other exception aborts the load. */
  function SchemaAtLoad(loaded: Result<string>): (r: Result<string>)
    ensures r.Err? <==> loaded.Err? && loaded.error.kind != FileNotFoundError
    ensures loaded.Ok? ==> r == loaded
    ensures loaded.Err? && loaded.error.kind == FileNotFoundError ==> r == Ok(SchemaUnavailable)
  {
    match loaded
    case Ok(s) => Ok(s)
    case Err(e) => if e.kind == FileNotFoundError then Ok(SchemaUnavailable) else Err(e)
  }

  /** A missing database never stops the service from loading: the schema is the sentinel. */
  lemma MissingDatabaseStillLoads(db: Database)
    requires !db.present
    ensures SchemaAtLoad(SchemaOutcome(db)) == Ok(SchemaUnavailable)
  {
  }

  /** Module load: the schema first, then the model; a model that fails to
      load leaves `llm` as None. `model` is what loading the weights gives. */
  method Load(db: Database, model: Result<LanguageModel>) returns (r: Result<Service>)
    modifies db
    ensures SchemaAtLoad(SchemaOutcome(db)).Err? ==> r == Err(SchemaAtLoad(SchemaOutcome(db)).error)
    ensures SchemaAtLoad(SchemaOutcome(db)).Ok? ==>
      r == Ok(Service(SchemaAtLoad(SchemaOutcome(db)).value, if model.Ok? then Some(model.value) else None))
    ensures db.log == old(db.log) + SchemaAccesses(db.present, db.catalog.Ok?)
    ensures db.openConnections == old(db.openConnections) + (if db.present && db.catalog.Err? then 1 else 0)
  {
    var schema := GetDbSchema(db);
    if schema.Err? && schema.error.kind == FileNotFoundError {
      schema := Ok(SchemaUnavailable);
    }
    if schema.Err? {
      return Err(schema.error);
    }
    var llm := if model.Ok? then Some(model.value) else None;
    r := Ok(Service(schema.value, llm));
  }

  // ---------------------------------------------------------------------------
  // The prompt

  const TaskHeading := "### Task"
  const TaskText := "Generate a single, executable SQL query that answers the following question.\nOnly output the SQL query and nothing else."
  const SchemaHeading := "### Database Schema"
  const SchemaIntro := "The query will be run on a database with the following schema:"
  const QuestionHeading := "### Question"
  const AnswerHeading := "### SQL Query"

  /** Everything before the schema, the text between schema and question, and the text after the question. */
  const PromptHead := "\n" + TaskHeading + "\n" + TaskText + "\n\n" + SchemaHeading + "\n" + SchemaIntro + "\n"
  const PromptMiddle := "\n\n" + QuestionHeading + "\n"
  const PromptTail := "\n\n" + AnswerHeading + "\n"

  /** The prompt for a schema and a question. */
  function Prompt(schema: string, question: string): (p: string)
    ensures |p| == |PromptHead| + |schema| + |PromptMiddle| + |question| + |PromptTail|
  {
    PromptHead + schema + PromptMiddle + question + PromptTail
  }

  /** Where the question starts in the prompt. */
  function QuestionAt(schema: string): nat {
    |PromptHead| + |schema| + |PromptMiddle|
  }

  /** `s` occurs in `p` at `at`. */
  predicate Occurs(p: string, s: string, at: int) {
    0 <= at && at + |s| <= |p| && p[at .. at + |s|] == s
  }

  /** The prompt holds, in this order, the Task heading, the Database Schema
      heading, the schema verbatim, the Question heading, the question
      verbatim and the SQL Query heading, which ends the prompt with a newline. */
  lemma PromptLayout(schema: string, question: string)
    ensures var p, s0, q0 := Prompt(schema, question), |PromptHead|, QuestionAt(schema);
      Occurs(p, TaskHeading, 1) &&
      Occurs(p, SchemaHeading, s0 - |SchemaIntro| - 1 - |SchemaHeading| - 1) &&
      1 + |TaskHeading| < s0 - |SchemaIntro| - 1 - |SchemaHeading| - 1 &&
      Occurs(p, schema, s0) &&
      Occurs(p, QuestionHeading, s0 + |schema| + 2) &&
      Occurs(p, question, q0) &&
      Occurs(p, AnswerHeading, q0 + |question| + 2) &&
      |p| == q0 + |question| + |PromptTail| && p[|p| - 1] == '\n'
  {
    var h := |PromptHead| - |SchemaIntro| - 1 - |SchemaHeading| - 1;
    TemplateHeadings();
    FivePartLayout(PromptHead, schema, PromptMiddle, question, PromptTail, TaskHeading, 1, SchemaHeading, h);
    FivePartTail(PromptHead, schema, PromptMiddle, question, PromptTail, QuestionHeading, 2, AnswerHeading, 2);
  }

  /** Where the headings sit in the fixed parts of the template. */
  lemma TemplateHeadings()
    ensures Occurs(PromptHead, TaskHeading, 1)
    ensures Occurs(PromptHead, SchemaHeading, |PromptHead| - |SchemaIntro| - 1 - |SchemaHeading| - 1)
    ensures 1 + |TaskHeading| < |PromptHead| - |SchemaIntro| - 1 - |SchemaHeading| - 1
    ensures Occurs(PromptMiddle, QuestionHeading, 2) && Occurs(PromptTail, AnswerHeading, 2)
    ensures PromptTail[|PromptTail| - 1] == '\n'
  {
  }

  /** In `a + b + c + d + e`, the parts `b` and `d` sit verbatim at their offsets,
      and so does anything occurring in `a`. */
  lemma FivePartLayout(a: string, b: string, c: string, d: string, e: string,
                       x: string, xAt: int, y: string, yAt: int)
    requires Occurs(a, x, xAt) && Occurs(a, y, yAt)
    ensures Occurs(a + b + c + d + e, x, xAt) && Occurs(a + b + c + d + e, y, yAt)
    ensures Occurs(a + b + c + d + e, b, |a|)
    ensures Occurs(a + b + c + d + e, d, |a| + |b| + |c|)
  {
    OccursWithin(a, b, c, d, e, x, xAt);
    OccursWithin(a, b, c, d, e, y, yAt);
    OccursAfter(a, b, c, b, 0);
    OccursLeft(a + b + c, d, b, |a|);
    OccursLeft(a + b + c + d, e, b, |a|);
    OccursAfter(a + b + c, d, e, d, 0);
  }

  /** In `a + b + c + d + e`, what occurs in `c` and in `e` occurs there, shifted. */
  lemma FivePartTail(a: string, b: string, c: string, d: string, e: string,
                     x: string, xAt: int, y: string, yAt: int)
    requires Occurs(c, x, xAt) && Occurs(e, y, yAt)
    ensures Occurs(a + b + c + d + e, x, |a| + |b| + xAt)
    ensures Occurs(a + b + c + d + e, y, |a| + |b| + |c| + |d| + yAt)
  {
    OccursAfter(a + b, c, d, x, xAt);
    OccursLeft(a + b + c + d, e, x, |a + b| + xAt);
    OccursRight(a + b + c + d, e, y, yAt);
  }

  /** What occurs in the first part of a concatenation occurs there in the whole. */
  lemma OccursWithin(a: string, b: string, c: string, d: string, e: string, s: string, at: int)
    requires Occurs(a, s, at)
    ensures Occurs(a + b + c + d + e, s, at)
  {
    assert (a + b + c + d + e)[at .. at + |s|] == a[at .. at + |s|];
  }

  /** What occurs in a text occurs at the same place once more text follows. */
  lemma OccursLeft(a: string, b: string, s: string, at: int)
    requires Occurs(a, s, at)
    ensures Occurs(a + b, s, at)
  {
    assert (a + b)[at .. at + |s|] == a[at .. at + |s|];
  }

  /** What occurs in a text occurs, shifted, once text is put in front of it. */
  lemma OccursRight(a: string, b: string, s: string, at: int)
    requires Occurs(b, s, at)
    ensures Occurs(a + b, s, |a| + at)
  {
    assert (a + b)[|a| + at .. |a| + at + |s|] == b[at .. at + |s|];
  }

  /** What occurs in the middle part of a concatenation occurs there, shifted, in the whole. */
  lemma OccursAfter(a: string, b: string, c: string, s: string, at: int)
    requires Occurs(b, s, at)
    ensures Occurs(a + b + c, s, |a| + at)
  {
    assert (a + b + c)[|a| + at .. |a| + at + |s|] == b[at .. at + |s|];
  }

  /** With the schema fixed, different questions give different prompts. */
  lemma PromptDeterminesQuestion(schema: string, q1: string, q2: string)
    requires Prompt(schema, q1) == Prompt(schema, q2)
    ensures q1 == q2
  {
    var p := Prompt(schema, q1);
    var q0 := QuestionAt(schema);
    assert |q1| == |q2|;
    assert q1 == p[q0 .. q0 + |q1|];
    assert q2 == Prompt(schema, q2)[q0 .. q0 + |q2|];
  }

  /** With the question fixed, different schemas give different prompts. */
  lemma PromptDeterminesSchema(s1: string, s2: string, question: string)
    requires Prompt(s1, question) == Prompt(s2, question)
    ensures s1 == s2
  {
    var p := Prompt(s1, question);
    var h := |PromptHead|;
    assert |s1| == |s2|;
    assert s1 == p[h .. h + |s1|];
    assert s2 == Prompt(s2, question)[h .. h + |s2|];
  }

  // ---------------------------------------------------------------------------
  // Clean-up of the generated text

  /** Append ";" if the text has none anywhere, then strip. */
  function CleanUp(raw: string): (r: string)
    ensures ';' in r
    ensures Stripped(r)
    ensures ';' !in raw ==> r == raw[LeadingSpaces(raw)..] + ";"
    ensures ';' in raw ==> r == Strip(raw)
  {
    var t := if ';' in raw then raw else raw + ";";
    assert t[|t| - 1] == ';' || ';' in raw;
    StripKeepsCount(t, ';');
    assert ';' in multiset(t);
    assert ';' !in raw ==> Strip(t) == raw[LeadingSpaces(raw)..] + ";" by {
      if ';' !in raw {
        StripAppended(raw, ';');
      }
    }
    Strip(t)
  }

  /** Whitespace at the end of the generated text stays in front of the
      appended terminator. */
  lemma TrailingSpaceBeforeTerminator()
    ensures CleanUp("SELECT 1 \n") == "SELECT 1 \n;"
  {
    var s := "SELECT 1 \n";
    assert s[0] == 'S';
    LeadingSpacesUnique(s, 0);
    assert ';' !in s by {
      assert forall k :: 0 <= k < |s| ==> s[k] != ';';
    }
  }

  /** Cleaning up twice is cleaning up once. */
  lemma CleanUpIdempotent(raw: string)
    ensures CleanUp(CleanUp(raw)) == CleanUp(raw)
  {
  }

  /** The texts the clean-up leaves alone are exactly those that hold a ";"
      and have no whitespace at either end. */
  lemma CleanUpFixpoints(s: string)
    ensures CleanUp(s) == s <==> ';' in s && Stripped(s)
  {
  }

  /** The clean-up adds exactly one ";" when the text had none and otherwise
      keeps the count of ";" as it was: the terminator is not moved to the end. */
  lemma {:induction false} CleanUpSemicolons(raw: string)
    ensures multiset(CleanUp(raw))[';'] == if ';' in raw then multiset(raw)[';'] else 1
  {
    var t := if ';' in raw then raw else raw + ";";
    StripKeepsCount(t, ';');
    if ';' !in raw {
      assert multiset(t) == multiset(raw) + multiset{';'};
    }
  }

  /** A generated text with a ";" inside and more after it keeps that tail:
      the result need not end with the terminator. */
  lemma TerminatorNeedNotBeLast()
    ensures CleanUp("SELECT 1; x") == "SELECT 1; x"
  {
    var s := "SELECT 1; x";
    assert s[8] == ';' && s[0] == 'S' && s[|s| - 1] == 'x';
  }

  // ---------------------------------------------------------------------------
  // get_sql_from_text

  /** The one generator call for a schema and a question. */
  function GenerationCall(schema: string, question: string): (c: Call)
    ensures c.prompt == Prompt(schema, question)
    ensures c.maxNewTokens == 256 && c.stop == ["\n\n", ";"]
  {
    Call(Prompt(schema, question), MaxNewTokens, StopSequences)
  }

  /** What `get_sql_from_text(question)` returns or raises. */
  function SqlFromText(schema: string, llm: Option<LanguageModel>, question: string): (r: Result<string>)
    ensures llm.None? ==> r == Err(Exc(RuntimeError, NotLoaded))
    ensures r.Ok? ==> ';' in r.value && Stripped(r.value)
    ensures llm.Some? ==> (r.Ok? <==> llm.value.complete(GenerationCall(schema, question)).Ok?)
    ensures llm.Some? && r.Err? ==> r == llm.value.complete(GenerationCall(schema, question))
    ensures llm.Some? && r.Ok? ==> r.value == CleanUp(llm.value.complete(GenerationCall(schema, question)).value)
  {
    if llm.None? then Err(Exc(RuntimeError, NotLoaded))
    else match llm.value.complete(GenerationCall(schema, question))
      case Ok(raw) => Ok(CleanUp(raw))
      case Err(e) => Err(e)
  }

  /** `get_sql_from_text`: refuse without a model, otherwise build the
      prompt, call the model once, and clean up its output step by step. */
  method GetSqlFromText(svc: Service, question: string) returns (r: Result<string>)
    modifies if svc.llm.Some? then {svc.llm.value} else {}
    ensures r == SqlFromText(svc.schema, svc.llm, question)
    ensures svc.llm.Some? ==> svc.llm.value.calls == old(svc.llm.value.calls) + [GenerationCall(svc.schema, question)]
  {
    if svc.llm.None? {
      return Err(Exc(RuntimeError, NotLoaded));
    }
    var prompt := Prompt(svc.schema, question);
    var generated := svc.llm.value.Generate(Call(prompt, MaxNewTokens, StopSequences));
    if generated.Err? {
      return Err(generated.error);
    }
    var sqlQuery := generated.value;
    if ';' !in sqlQuery {
      sqlQuery := sqlQuery + ";";
    }
    sqlQuery := Strip(sqlQuery);
    r := Ok(sqlQuery);
  }
}
