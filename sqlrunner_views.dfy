/**
 * The REST handlers of the query runner (`sqlrunner/views.py`), each a fixed order of
 * checks mapped to an HTTP status and a JSON body. Request fields and Django settings are
 * plain inputs; the database is reached only through the functions of `SqlRunnerUtils`.
 */
module SqlRunnerViews {
  import opened Wrappers
  import opened Text
  import opened Records
  import opened SqlRunnerUtils

  const StatusOk: int := 200
  const StatusBadRequest: int := 400
  const StatusForbidden: int := 403
  const StatusNotFound: int := 404
  const StatusInternalServerError: int := 500

  const MissingQueryError := "Missing \"query\" in request body."
  const OnlySelectError := "Only SELECT queries are allowed by default."
  const ExecutedMessage := "Query executed successfully"

  /** The Django settings the handlers read; `None` is a setting that is not defined. */
  datatype Settings = Settings(
    allowNonSelectQueries: Option<bool>,
    queryRowLimit: Option<int>,
    tableSampleLimit: Option<int>)

  /** The JSON object of a response. */
  datatype Body =
    | ErrorBody(error: string)
    | RowsBody(columns: seq<string>, rows: seq<Row>)
    | MessageBody(message: string)
    | TablesBody(tables: seq<string>)
    | DetailBody(detail: TableDetail)

  datatype Response = Response(status: int, body: Body)

  /** `getattr(settings, 'ALLOW_NON_SELECT_QUERIES', False)`. */
  function AllowNonSelect(settings: Settings): (allow: bool)
    ensures settings.allowNonSelectQueries.None? ==> !allow
    ensures settings.allowNonSelectQueries.Some? ==> allow == settings.allowNonSelectQueries.value
  {
    settings.allowNonSelectQueries.GetOr(false)
  }

  /** `getattr(settings, 'QUERY_ROW_LIMIT', 1000)`. */
  function RowLimit(settings: Settings): (limit: int)
    ensures settings.queryRowLimit.None? ==> limit == 1000
    ensures settings.queryRowLimit.Some? ==> limit == settings.queryRowLimit.value
  {
    settings.queryRowLimit.GetOr(DefaultRowLimit)
  }

  /**
   * `ExecuteQueryView.post`. `query` is the `query` field of the request body (`None`
   * when absent); `db` is what the database does with each statement text.
   */
  function ExecuteQueryPost(query: Option<string>, settings: Settings, db: string -> DbOutcome): (r: Response)
    ensures r.status == StatusOk || r.status == StatusBadRequest || r.status == StatusForbidden
    ensures query.None? || query.value == [] ==> r == Response(StatusBadRequest, ErrorBody(MissingQueryError))
    ensures r.status == StatusForbidden <==>
      query.Some? && query.value != [] && !AllowNonSelect(settings) && !IsReadOnlyQuery(query.value)
    ensures r.status == StatusForbidden ==> r.body == ErrorBody(OnlySelectError)
  {
    if query.None? || query.value == [] then
      Response(StatusBadRequest, ErrorBody(MissingQueryError))
    else if !AllowNonSelect(settings) && !IsReadOnlyQuery(query.value) then
      Response(StatusForbidden, ErrorBody(OnlySelectError))
    else
      match ExecuteQuery(query.value, RowLimit(settings), db)
      case Failure(message) => Response(StatusBadRequest, ErrorBody(message))
      case Success(Execution(rows, columns)) =>
        if IsReadOnlyQuery(query.value) then Response(StatusOk, RowsBody(columns, rows))
        else Response(StatusOk, MessageBody(ExecutedMessage))
  }

  /** `ListTablesView.get`: `listing` is what `list_tables` returned or the text of what it raised. */
  function ListTablesGet(listing: Result<seq<string>, string>): (r: Response)
    ensures r.status == StatusOk <==> listing.Success?
    ensures listing.Success? ==> r.body == TablesBody(listing.value)
    ensures listing.Failure? ==> r == Response(StatusInternalServerError, ErrorBody(listing.error))
  {
    match listing
    case Success(tables) => Response(StatusOk, TablesBody(tables))
    case Failure(message) => Response(StatusInternalServerError, ErrorBody(message))
  }

  /** Python's message for `int(s)` on a string it rejects. */
  function InvalidIntMessage(s: string): (r: string)
    ensures |r| == |s| + 42
    ensures r[..41] == "invalid literal for int() with base 10: '" && r[41..|r| - 1] == s && r[|r| - 1] == '\''
  {
    "invalid literal for int() with base 10: '" + s + "'"
  }

  /**
   * The sample limit of `TableDetailView.get`: the `limit` query parameter when present,
   * else the `TABLE_SAMPLE_LIMIT` setting, else 10, passed through `int()`.
   */
  function SampleLimit(limitParam: Option<string>, settings: Settings): (r: Result<int, Exception>)
    ensures r.Failure? ==> r.error.ValueError?
    ensures limitParam.None? ==> r == Success(settings.tableSampleLimit.GetOr(DefaultSampleLimit))
    ensures limitParam.Some? ==> (r.Success? <==> ParseInt(limitParam.value).Some?)
    ensures limitParam.Some? && r.Success? ==> r == Success(ParseInt(limitParam.value).value)
  {
    match limitParam
    case None => Success(settings.tableSampleLimit.GetOr(DefaultSampleLimit))
    case Some(text) =>
      match ParseInt(text)
      case Some(n) => Success(n)
      case None => Failure(ValueError(InvalidIntMessage(text)))
  }

  /** The status an escaping exception is mapped to. */
  function ErrorStatus(e: Exception): (status: int)
    ensures status == StatusNotFound <==> e.ValueError?
    ensures status == StatusInternalServerError <==> e.DatabaseError?
  {
    match e
    case ValueError(_) => StatusNotFound
    case DatabaseError(_) => StatusInternalServerError
  }

  /** `TableDetailView.get(request, table_name)`. */
  function TableDetailGet(
    tableName: string,
    limitParam: Option<string>,
    settings: Settings,
    pragma: string -> Result<seq<PragmaRow>, string>,
    select: string -> Result<seq<Row>, string>
  ): (r: Response)
    ensures r.status == StatusOk || r.status == StatusNotFound || r.status == StatusInternalServerError
    ensures r.status == StatusOk <==> r.body.DetailBody?
  {
    var outcome :=
      match SampleLimit(limitParam, settings)
      case Failure(e) => Failure(e)
      case Success(sampleLimit) => TableSchemaAndSamples(tableName, sampleLimit, pragma, select);
    match outcome
    case Success(detail) => Response(StatusOk, DetailBody(detail))
    case Failure(e) => Response(ErrorStatus(e), ErrorBody(e.Str()))
  }

  // ---------------------------------------------------------------------------
  // Properties of ExecuteQueryView.post

  /** The settings of a project that defines none of the three. */
  const DefaultSettings := Settings(None, None, None)

  /** A rows body is given exactly for a read-only query the database answers; it is that answer to the rewritten text. */
  lemma ExecuteQueryRows(query: Option<string>, settings: Settings, db: string -> DbOutcome)
    ensures ExecuteQueryPost(query, settings, db).body.RowsBody? <==>
      query.Some? && IsReadOnlyQuery(query.value) && db(RewriteQuery(query.value, RowLimit(settings))).Completed?
    ensures ExecuteQueryPost(query, settings, db).body.RowsBody? ==>
      var answer := db(RewriteQuery(query.value, RowLimit(settings)));
      ExecuteQueryPost(query, settings, db) == Response(StatusOk, RowsBody(answer.columns, answer.rows))
  {
    if query.Some? && IsReadOnlyQuery(query.value) {
      ExecuteReadOnly(query.value, RowLimit(settings), db);
    }
  }

  /** The success message is given exactly for an allowed statement that is not read-only and that the database completes as stripped. */
  lemma ExecuteQueryMessage(query: Option<string>, settings: Settings, db: string -> DbOutcome)
    ensures ExecuteQueryPost(query, settings, db).body.MessageBody? <==>
      && query.Some? && query.value != [] && AllowNonSelect(settings) && !IsReadOnlyQuery(query.value)
      && db(Strip(query.value)).Completed?
    ensures ExecuteQueryPost(query, settings, db).body.MessageBody? ==>
      ExecuteQueryPost(query, settings, db) == Response(StatusOk, MessageBody(ExecutedMessage))
  {
    if query.Some? && query.value != [] && !IsReadOnlyQuery(query.value) {
      ExecuteNonReadOnly(query.value, RowLimit(settings), db);
    }
  }

  /** A statement that passes the guards and that the database rejects gives 400 with the database's text. */
  lemma ExecuteQueryFailure(query: Option<string>, settings: Settings, db: string -> DbOutcome)
    requires query.Some? && query.value != []
    requires AllowNonSelect(settings) || IsReadOnlyQuery(query.value)
    requires db(RewriteQuery(query.value, RowLimit(settings))).Failed?
    ensures ExecuteQueryPost(query, settings, db) ==
      Response(StatusBadRequest, ErrorBody(db(RewriteQuery(query.value, RowLimit(settings))).message))
  {
  }

  /** A rejected or forbidden request never reaches the database. */
  lemma GuardsPrecedeDatabase(query: Option<string>, settings: Settings, db: string -> DbOutcome, db': string -> DbOutcome)
    requires query.None? || query.value == [] || (!AllowNonSelect(settings) && !IsReadOnlyQuery(query.value))
    ensures ExecuteQueryPost(query, settings, db) == ExecuteQueryPost(query, settings, db')
  {
  }

  /** With the default settings a query whose first word is not SELECT is forbidden, a blank one included. */
  lemma DefaultForbidsNonSelect(sql: string, db: string -> DbOutcome)
    requires sql != []
    requires AllWhitespace(sql) || Lower(FirstWord(sql)) != "select"
    ensures ExecuteQueryPost(Some(sql), DefaultSettings, db) == Response(StatusForbidden, ErrorBody(OnlySelectError))
  {
    ReadOnlyIffFirstWordIsSelect(sql);
  }

  /** With the default settings a SELECT without a limit is sent with " LIMIT 1000;" in place of its trailing semicolons. */
  lemma DefaultSelectGetsRowLimit(sql: string, db: string -> DbOutcome)
    requires GetsLimit(sql)
    ensures ExecuteQueryPost(Some(sql), DefaultSettings, db) ==
      match db(RStrip(Strip(sql), ';') + " LIMIT 1000;")
      case Failed(message) => Response(StatusBadRequest, ErrorBody(message))
      case Completed(rows, columns) => Response(StatusOk, RowsBody(columns, rows))
  {
    RewriteWhenLimited(sql, 1000);
    var kept := RStrip(Strip(sql), ';');
    assert IntToString(1000) == "1000";
    ConcatAssoc(kept + " LIMIT ", "1000", ";");
    ConcatAssoc(kept, " LIMIT ", "1000;");
    assert RewriteQuery(sql, 1000) == kept + " LIMIT 1000;";
    ExecuteReadOnly(sql, 1000, db);
  }

  // ---------------------------------------------------------------------------
  // Properties of TableDetailView.get

  /** 404 is given exactly for an unparsable limit or a table the PRAGMA does not know. */
  lemma TableDetailNotFound(
    tableName: string,
    limitParam: Option<string>,
    settings: Settings,
    pragma: string -> Result<seq<PragmaRow>, string>,
    select: string -> Result<seq<Row>, string>
  )
    ensures TableDetailGet(tableName, limitParam, settings, pragma, select).status == StatusNotFound <==>
      SampleLimit(limitParam, settings).Failure? || pragma(PragmaStatement(tableName)) == Success([])
  {
  }

  /** A 200 carries the converted PRAGMA rows and the sample query's rows, at the resolved limit. */
  lemma TableDetailFound(
    tableName: string,
    limitParam: Option<string>,
    settings: Settings,
    pragma: string -> Result<seq<PragmaRow>, string>,
    select: string -> Result<seq<Row>, string>
  )
    requires TableDetailGet(tableName, limitParam, settings, pragma, select).status == StatusOk
    ensures SampleLimit(limitParam, settings).Success?
    ensures pragma(PragmaStatement(tableName)).Success? && pragma(PragmaStatement(tableName)).value != []
    ensures var detail := TableDetailGet(tableName, limitParam, settings, pragma, select).body.detail;
      && detail.schema == BuildSchema(pragma(PragmaStatement(tableName)).value)
      && select(SampleStatement(tableName, SampleLimit(limitParam, settings).value)) == Success(detail.samples)
  {
  }

  /**
   * The four ways a table-detail request ends once the limit is known: the detail with
   * 200, the not-found text with 404, or either query's error text with 500.
   */
  lemma TableDetailResponses(
    tableName: string,
    limitParam: Option<string>,
    settings: Settings,
    pragma: string -> Result<seq<PragmaRow>, string>,
    select: string -> Result<seq<Row>, string>
  )
    requires SampleLimit(limitParam, settings).Success?
    ensures var n := SampleLimit(limitParam, settings).value;
      var info := pragma(PragmaStatement(tableName));
      var samples := select(SampleStatement(tableName, n));
      var response := TableDetailGet(tableName, limitParam, settings, pragma, select);
      && (info.Success? && info.value != [] && samples.Success? ==>
            response == Response(StatusOk, DetailBody(TableDetail(BuildSchema(info.value), samples.value))))
      && (info == Success([]) ==>
            response == Response(StatusNotFound, ErrorBody(NotFoundMessage(tableName))))
      && (info.Failure? ==>
            response == Response(StatusInternalServerError, ErrorBody(info.error)))
      && (info.Success? && info.value != [] && samples.Failure? ==>
            response == Response(StatusInternalServerError, ErrorBody(samples.error)))
  {
  }

  /** A limit that `int()` rejects is a 404 that names it, before any database access. */
  lemma BadLimitIsNotFound(
    tableName: string,
    text: string,
    settings: Settings,
    pragma: string -> Result<seq<PragmaRow>, string>,
    select: string -> Result<seq<Row>, string>
  )
    requires ParseInt(text).None?
    ensures TableDetailGet(tableName, Some(text), settings, pragma, select) ==
      Response(StatusNotFound, ErrorBody(InvalidIntMessage(text)))
  {
  }

  /** Without a limit parameter or setting, the samples are fetched as if `limit=10` had been passed. */
  lemma DefaultSampleLimitIsTen(
    tableName: string,
    settings: Settings,
    pragma: string -> Result<seq<PragmaRow>, string>,
    select: string -> Result<seq<Row>, string>
  )
    requires settings.tableSampleLimit.None?
    ensures SampleLimit(None, settings) == Success(10)
    ensures TableDetailGet(tableName, None, settings, pragma, select) == TableDetailGet(tableName, Some("10"), settings, pragma, select)
  {
    assert IntToString(10) == "10";
    ParseIntOfIntToString(10);
  }

  /** The limit the web page sends. */
  lemma PageLimitParses(settings: Settings)
    ensures SampleLimit(Some("5"), settings) == Success(5)
  {
    assert IntToString(5) == "5";
    ParseIntOfIntToString(5);
  }

  /** `int()` ignores the blanks around the digits. */
  lemma PaddedLimitParses(text: string, settings: Settings)
    requires text == " 5\n"
    ensures SampleLimit(Some(text), settings) == Success(5)
  {
    assert text == " " + "5" + "\n";
    StripPadded(" ", "5", "\n");
    ConcatEmpty("5");
    StripPadded([], "5", []);
    PageLimitParses(settings);
  }

  /** Words are not limits. */
  lemma WordLimitIsNotFound(text: string, settings: Settings)
    requires text == "five"
    ensures SampleLimit(Some(text), settings) == Failure(ValueError("invalid literal for int() with base 10: 'five'"))
  {
    assert Strip(text) == text;
    assert !(IsDigit(text[0]) || text[0] == '_');
    assert ParseSigned(text) == None;
    assert InvalidIntMessage(text) == "invalid literal for int() with base 10: 'five'";
  }
}
