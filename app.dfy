/**
 * The single-page UI (`Frontend/SqlCompilr/src/App.jsx`): the component's `useState`
 * fields as a `Session` object whose handlers update them, and the render-time maps as
 * pure functions from those fields to what is shown. Each asynchronous handler is split
 * into the step that runs before the request resolves and a `Complete…` step that takes
 * the request's outcome.
 */
module App {
  import opened Wrappers
  import opened Text
  import opened Records
  import opened SqlRunnerUtils
  import opened SqlRunnerViews

  const BlankQueryError := "Please enter a SQL query"
  const ExecuteFallbackError := "Error executing query"
  const DetailErrorPrefix := "Error fetching table details: "
  /** The `limit` query parameter the page sends with every table-detail request. */
  const PageSampleLimit := "5"

  /** The JSON body of a successful execute request, with each property possibly absent. */
  datatype ExecData = ExecData(message: Option<string>, columns: Option<seq<string>>, rows: Option<seq<Row>>)

  /** What `results` holds once a request has succeeded. */
  datatype Results = MessageOnly(message: string) | Whole(data: ExecData)

  /** How an execute request resolves: a 2xx body, or an error with the service's `error` text if it sent one. */
  datatype ExecOutcome = ExecSucceeded(data: ExecData) | ExecFailed(serviceError: Option<string>)

  /** How a table-detail request resolves; `message` is the client library's own error text. */
  datatype DetailOutcome =
    | DetailSucceeded(schema: seq<SchemaColumn>, samples: seq<Row>)
    | DetailFailed(serviceError: Option<string>, message: string)

  datatype TablesOutcome = TablesSucceeded(tables: seq<string>) | TablesFailed

  /** JavaScript truthiness of an optional string: present and not empty. */
  predicate Truthy(s: Option<string>) {
    s.Some? && s.value != []
  }

  /** The `insertTableName` updater `prev + (prev ? ", " : "") + tableName`. */
  function AppendTableName(prev: string, name: string): (r: string)
    ensures |r| == |prev| + |name| + (if prev == [] then 0 else 2)
    ensures r[..|prev|] == prev && r[|r| - |name|..] == name
    ensures prev != [] ==> r[|prev|..|prev| + 2] == ", "
  {
    prev + (if prev != [] then ", " else "") + name
  }

  /** What a successful execute stores: the message alone when it is truthy, else the whole body. */
  function ResultsOf(data: ExecData): (r: Results)
    ensures r.MessageOnly? <==> Truthy(data.message)
    ensures r.MessageOnly? ==> r.message == data.message.value
    ensures r.Whole? ==> r.data == data
  {
    if Truthy(data.message) then MessageOnly(data.message.value) else Whole(data)
  }

  /** `err.response?.data?.error || "Error executing query"`. */
  function ExecErrorText(serviceError: Option<string>): (text: string)
    ensures text != []
    ensures Truthy(serviceError) ==> text == serviceError.value
    ensures !Truthy(serviceError) ==> text == ExecuteFallbackError
  {
    if Truthy(serviceError) then serviceError.value else ExecuteFallbackError
  }

  /** The banner text of a failed table-detail request. */
  function DetailErrorText(serviceError: Option<string>, message: string): (text: string)
    ensures |DetailErrorPrefix| <= |text| && text[..|DetailErrorPrefix|] == DetailErrorPrefix
    ensures text[|DetailErrorPrefix|..] == if Truthy(serviceError) then serviceError.value else message
  {
    DetailErrorPrefix + if Truthy(serviceError) then serviceError.value else message
  }

  /** The request `fetchTableDetails(tableName)` sends: the table named in the path, limit 5. */
  datatype DetailRequest = DetailRequest(tableName: string, limit: Option<string>)

  /** The component's state. */
  class Session {
    var query: string
    var results: Option<Results>
    var error: string
    var loading: bool
    var tables: seq<string>
    var selectedTable: Option<string>
    var tableSchema: Option<seq<SchemaColumn>>
    var tableSamples: Option<seq<Row>>
    var lastQuery: string
    var showLastQueryPopup: bool

    /**
     * What every handler keeps: the last query is stored trimmed; while a query is
     * executing there are no results and the last query is that query; the popup is
     * open only over a last query.
     */
    predicate Valid()
      reads this
    {
      && Strip(lastQuery) == lastQuery
      && (loading ==> results.None? && lastQuery != [])
      && (showLastQueryPopup ==> lastQuery != [])
    }

    /** The initial `useState` values. */
    constructor ()
      ensures Valid()
      ensures query == [] && results == None && error == [] && !loading && tables == []
      ensures selectedTable == None && tableSchema == None && tableSamples == None
      ensures lastQuery == [] && !showLastQueryPopup
    {
      query := [];
      results := None;
      error := [];
      loading := false;
      tables := [];
      selectedTable := None;
      tableSchema := None;
      tableSamples := None;
      lastQuery := [];
      showLastQueryPopup := false;
      ConcatEmpty([]);
      StripPadded([], [], []);
    }

    /**
     * `executeQuery` up to the request: a blank query only sets the error; any other
     * starts loading, clears error and results, records the trimmed text as the last
     * query and returns it as the `query` to post.
     */
    method ExecuteQuery() returns (sent: Option<string>)
      requires Valid()
      modifies this
      ensures Valid()
      ensures sent == if Strip(old(query)) == [] then None else Some(Strip(old(query)))
      ensures sent.None? ==>
        && error == BlankQueryError
        && results == old(results) && loading == old(loading) && lastQuery == old(lastQuery)
      ensures sent.Some? ==>
        && loading && error == [] && results == None && lastQuery == sent.value
      ensures query == old(query) && showLastQueryPopup == old(showLastQueryPopup)
      ensures tables == old(tables) && selectedTable == old(selectedTable)
      ensures tableSchema == old(tableSchema) && tableSamples == old(tableSamples)
    {
      var trimmed := Strip(query);
      if trimmed == [] {
        error := BlankQueryError;
        sent := None;
        return;
      }
      loading := true;
      error := [];
      results := None;
      StripIdempotent(query);
      lastQuery := trimmed;
      sent := Some(trimmed);
    }

    /**
     * `executeQuery` once the request resolves: success stores the results, failure the
     * error text; either way loading ends.
     */
    method CompleteExecuteQuery(outcome: ExecOutcome)
      requires Valid() && loading
      modifies this
      ensures Valid() && !loading
      ensures outcome.ExecSucceeded? ==> results == Some(ResultsOf(outcome.data)) && error == old(error)
      ensures outcome.ExecFailed? ==> results == None && error == ExecErrorText(outcome.serviceError)
      ensures query == old(query) && lastQuery == old(lastQuery) && showLastQueryPopup == old(showLastQueryPopup)
      ensures tables == old(tables) && selectedTable == old(selectedTable)
      ensures tableSchema == old(tableSchema) && tableSamples == old(tableSamples)
    {
      loading := false;
      match outcome
      case ExecSucceeded(data) =>
        results := Some(ResultsOf(data));
      case ExecFailed(serviceError) =>
        error := ExecErrorText(serviceError);
    }

    /** `fetchTableDetails(tableName)` up to the request, which changes no state. */
    method FetchTableDetails(tableName: string) returns (request: DetailRequest)
      ensures request.tableName == tableName && request.limit == Some(PageSampleLimit)
    {
      request := DetailRequest(tableName, Some(PageSampleLimit));
    }

    /**
     * `fetchTableDetails(tableName)` once the request resolves: success selects the table
     * and shows its schema and samples; failure only sets the error banner.
     */
    method CompleteFetchTableDetails(tableName: string, outcome: DetailOutcome)
      requires Valid()
      modifies this
      ensures Valid()
      ensures outcome.DetailSucceeded? ==>
        && tableSchema == Some(outcome.schema) && tableSamples == Some(outcome.samples)
        && selectedTable == Some(tableName) && error == old(error)
      ensures outcome.DetailFailed? ==>
        && error == DetailErrorText(outcome.serviceError, outcome.message)
        && selectedTable == old(selectedTable) && tableSchema == old(tableSchema) && tableSamples == old(tableSamples)
      ensures query == old(query) && results == old(results) && loading == old(loading)
      ensures tables == old(tables) && lastQuery == old(lastQuery) && showLastQueryPopup == old(showLastQueryPopup)
    {
      match outcome
      case DetailSucceeded(schema, samples) =>
        tableSchema := Some(schema);
        tableSamples := Some(samples);
        selectedTable := Some(tableName);
      case DetailFailed(serviceError, message) =>
        error := DetailErrorText(serviceError, message);
    }

    /**
     * `fetchTables` once the request resolves, followed by the effect on `tables`: a
     * non-empty list while no table is selected returns its first name, whose details
     * are then fetched. A failure is only logged.
     */
    method CompleteFetchTables(outcome: TablesOutcome) returns (follow: Option<string>)
      requires Valid()
      modifies this
      ensures Valid()
      ensures tables == if outcome.TablesSucceeded? then outcome.tables else old(tables)
      ensures follow.Some? <==> outcome.TablesSucceeded? && |outcome.tables| > 0 && !Truthy(old(selectedTable))
      ensures follow.Some? ==> follow.value == outcome.tables[0]
      ensures query == old(query) && results == old(results) && error == old(error) && loading == old(loading)
      ensures selectedTable == old(selectedTable) && tableSchema == old(tableSchema) && tableSamples == old(tableSamples)
      ensures lastQuery == old(lastQuery) && showLastQueryPopup == old(showLastQueryPopup)
    {
      follow := None;
      if outcome.TablesSucceeded? {
        tables := outcome.tables;
        if |tables| > 0 && !Truthy(selectedTable) {
          follow := Some(tables[0]);
        }
      }
    }

    /** `insertTableName`: the name is appended to the query text. */
    method InsertTableName(tableName: string)
      requires Valid()
      modifies this`query
      ensures Valid()
      ensures query == AppendTableName(old(query), tableName)
    {
      query := AppendTableName(query, tableName);
    }

    /** `clearQuery`: empties the editor, the results and the error; nothing else. */
    method ClearQuery()
      requires Valid()
      modifies this`query, this`results, this`error
      ensures Valid()
      ensures query == [] && results == None && error == []
    {
      query := [];
      results := None;
      error := [];
    }

    /** The textarea's `onChange`. */
    method EditQuery(text: string)
      requires Valid()
      modifies this`query
      ensures Valid()
      ensures query == text
    {
      query := text;
    }

    /** "Show Last Query": disabled, so without effect, while there is no last query. */
    method ShowLastQuery()
      requires Valid()
      modifies this`showLastQueryPopup
      ensures Valid()
      ensures showLastQueryPopup == (old(showLastQueryPopup) || lastQuery != [])
    {
      if !ShowLastQueryDisabled() {
        showLastQueryPopup := true;
      }
    }

    /** "Use This Query": the last query goes back into the editor and the popup closes. */
    method UseLastQuery()
      requires Valid()
      modifies this`query, this`showLastQueryPopup
      ensures Valid()
      ensures query == lastQuery && !showLastQueryPopup
    {
      query := lastQuery;
      showLastQueryPopup := false;
    }

    /** The overlay, the × button and "Close": the popup closes. */
    method CloseLastQueryPopup()
      requires Valid()
      modifies this`showLastQueryPopup
      ensures Valid()
      ensures !showLastQueryPopup
    {
      showLastQueryPopup := false;
    }

    /** `disabled={!lastQuery}` on "Show Last Query". */
    function ShowLastQueryDisabled(): bool
      reads this
    {
      lastQuery == []
    }
  }

  // ---------------------------------------------------------------------------
  // Rendering

  /** The results section: absent, the success line, or the table. Missing cells are `None`. */
  datatype ResultsView =
    | NoResults
    | Status(message: string)
    | Grid(columnCount: nat, rowCount: nat, header: seq<string>, body: seq<seq<Option<Value>>>)

  /** `results` read as the object the JSX sees. */
  function AsData(results: Results): ExecData {
    match results
    case MessageOnly(message) => ExecData(Some(message), None, None)
    case Whole(data) => data
  }

  /**
   * `{results && (results.message ? … : …)}`: the message when it is truthy, else a
   * table with `results.columns` as header and, per row, `row[column]` for each column.
   */
  function RenderResults(results: Option<Results>): (view: ResultsView)
    ensures view.NoResults? <==> results.None?
    ensures view.Status? <==> results.Some? && Truthy(AsData(results.value).message)
    ensures view.Status? ==> view.message == AsData(results.value).message.value
    ensures view.Grid? ==>
      var columns := AsData(results.value).columns.GetOr([]);
      var rows := AsData(results.value).rows.GetOr([]);
      && view.header == columns && view.columnCount == |columns|
      && view.rowCount == |rows| && |view.body| == |rows|
      && forall i | 0 <= i < |rows| ::
           |view.body[i]| == |columns| && forall j | 0 <= j < |columns| :: view.body[i][j] == Lookup(rows[i], columns[j])
  {
    match results
    case None => NoResults
    case Some(r) =>
      var data := AsData(r);
      if Truthy(data.message) then Status(data.message.value)
      else
        var columns := data.columns.GetOr([]);
        var rows := data.rows.GetOr([]);
        Grid(|columns|, |rows|, columns,
          seq(|rows|, i requires 0 <= i < |rows| =>
            seq(|columns|, j requires 0 <= j < |columns| => Lookup(rows[i], columns[j]))))
  }

  /** One entry of the schema list: name, type, and the PK badge. */
  datatype SchemaItem = SchemaItem(name: string, columnType: string, primaryKey: bool)

  function RenderSchema(schema: seq<SchemaColumn>): (items: seq<SchemaItem>)
    ensures |items| == |schema|
    ensures forall i | 0 <= i < |schema| :: items[i] == SchemaItem(schema[i].name, schema[i].columnType, schema[i].pk)
  {
    seq(|schema|, i requires 0 <= i < |schema| => SchemaItem(schema[i].name, schema[i].columnType, schema[i].pk))
  }

  /** The sample table: the keys of the first row as header, each row's own values as its cells. */
  datatype SampleTable = SampleTable(header: seq<string>, body: seq<seq<Value>>)

  function RenderSamples(samples: seq<Row>): (table: SampleTable)
    ensures table.header == if samples == [] then [] else Keys(samples[0])
    ensures |table.body| == |samples|
    ensures forall i | 0 <= i < |samples| :: table.body[i] == Values(samples[i])
  {
    SampleTable(
      if samples == [] then [] else Keys(samples[0]),
      seq(|samples|, i requires 0 <= i < |samples| => Values(samples[i])))
  }

  /** The "Table: …" box, shown while a table is selected; its parts only once loaded. */
  datatype DetailPanel = DetailPanel(title: string, schema: Option<seq<SchemaItem>>, samples: Option<SampleTable>)

  function RenderDetailPanel(
    selectedTable: Option<string>,
    tableSchema: Option<seq<SchemaColumn>>,
    tableSamples: Option<seq<Row>>
  ): (panel: Option<DetailPanel>)
    ensures panel.Some? <==> Truthy(selectedTable)
    ensures panel.Some? ==> panel.value.title == selectedTable.value
    ensures panel.Some? ==> (panel.value.schema.Some? <==> tableSchema.Some?)
    ensures panel.Some? ==> (panel.value.samples.Some? <==> tableSamples.Some?)
  {
    if !Truthy(selectedTable) then None
    else
      Some(DetailPanel(
        selectedTable.value,
        if tableSchema.Some? then Some(RenderSchema(tableSchema.value)) else None,
        if tableSamples.Some? then Some(RenderSamples(tableSamples.value)) else None))
  }

  /** One entry of the table list; `active` marks the selected table. */
  datatype TableItem = TableItem(name: string, active: bool)

  function RenderTableList(tables: seq<string>, selectedTable: Option<string>): (items: seq<TableItem>)
    ensures |items| == |tables|
    ensures forall i | 0 <= i < |tables| :: items[i].name == tables[i] && (items[i].active <==> selectedTable == Some(tables[i]))
  {
    seq(|tables|, i requires 0 <= i < |tables| => TableItem(tables[i], selectedTable == Some(tables[i])))
  }

  /** With distinct table names, at most one entry is marked active. */
  lemma AtMostOneActive(tables: seq<string>, selectedTable: Option<string>, i: nat, j: nat)
    requires forall a, b | 0 <= a < b < |tables| :: tables[a] != tables[b]
    requires i < |tables| && j < |tables|
    requires RenderTableList(tables, selectedTable)[i].active && RenderTableList(tables, selectedTable)[j].active
    ensures i == j
  {
  }

  // ---------------------------------------------------------------------------
  // The UI against the service

  /** The properties of a response body a successful execute request reads. */
  function ExecDataOf(body: Body): (data: ExecData)
    ensures body.RowsBody? ==> data == ExecData(None, Some(body.columns), Some(body.rows))
    ensures body.MessageBody? ==> data == ExecData(Some(body.message), None, None)
  {
    match body
    case RowsBody(columns, rows) => ExecData(None, Some(columns), Some(rows))
    case MessageBody(message) => ExecData(Some(message), None, None)
    case _ => ExecData(None, None, None)
  }

  /** `err.response.data.error` of a failed request. */
  function ServiceError(body: Body): (error: Option<string>)
    ensures error.Some? <==> body.ErrorBody?
    ensures error.Some? ==> error.value == body.error
  {
    match body
    case ErrorBody(error) => Some(error)
    case _ => None
  }

  /** The HTTP client's reading of a response: a 2xx status resolves, any other rejects. */
  function ExecOutcomeOf(response: Response): (outcome: ExecOutcome)
    ensures outcome.ExecSucceeded? <==> 200 <= response.status < 300
  {
    if 200 <= response.status < 300 then ExecSucceeded(ExecDataOf(response.body))
    else ExecFailed(ServiceError(response.body))
  }

  /** The same for a table-detail response; `clientMessage` is the client's text for a failed request. */
  function DetailOutcomeOf(response: Response, clientMessage: string): (outcome: DetailOutcome)
    ensures response.status == StatusOk && response.body.DetailBody? ==>
      outcome == DetailSucceeded(response.body.detail.schema, response.body.detail.samples)
    ensures !(200 <= response.status < 300) ==> outcome == DetailFailed(ServiceError(response.body), clientMessage)
  {
    if 200 <= response.status < 300 then
      match response.body
      case DetailBody(detail) => DetailSucceeded(detail.schema, detail.samples)
      // Not reachable from TableDetailGet, whose 2xx responses all carry a detail body;
      // the page would store `undefined` here and render nothing.
      case _ => DetailSucceeded([], [])
    else DetailFailed(ServiceError(response.body), clientMessage)
  }

  /** The page only ever posts a non-blank text, so the service's 400 then always carries a database error. */
  lemma SentQueryIsNeverMissing(query: string, settings: Settings, db: string -> DbOutcome)
    requires Strip(query) != []
    ensures var response := ExecuteQueryPost(Some(Strip(query)), settings, db);
      response.status == StatusBadRequest ==>
        && db(RewriteQuery(Strip(query), RowLimit(settings))).Failed?
        && response.body == ErrorBody(db(RewriteQuery(Strip(query), RowLimit(settings))).message)
  {
  }

  /** Under the default settings a non-SELECT statement ends as the "Only SELECT" banner. */
  lemma ForbiddenQueryShowsError(query: string, db: string -> DbOutcome)
    requires Strip(query) != [] && !IsReadOnlyQuery(query)
    ensures var outcome := ExecOutcomeOf(ExecuteQueryPost(Some(Strip(query)), DefaultSettings, db));
      outcome.ExecFailed? && ExecErrorText(outcome.serviceError) == OnlySelectError
  {
    ReadOnlyOfStrip(query);
  }

  /** A SELECT the database answers is shown as a table of exactly its columns and rows. */
  lemma SelectShownAsGrid(query: string, settings: Settings, db: string -> DbOutcome)
    requires IsReadOnlyQuery(query)
    requires db(RewriteQuery(Strip(query), RowLimit(settings))).Completed?
    ensures var answer := db(RewriteQuery(Strip(query), RowLimit(settings)));
      var outcome := ExecOutcomeOf(ExecuteQueryPost(Some(Strip(query)), settings, db));
      && outcome.ExecSucceeded?
      && var view := RenderResults(Some(ResultsOf(outcome.data)));
      && view.Grid? && view.header == answer.columns && view.rowCount == |answer.rows|
  {
    ReadOnlyOfStrip(query);
    ExecuteQueryRows(Some(Strip(query)), settings, db);
  }

  /** An allowed statement that is not a SELECT is shown as the success line once the database completes it. */
  lemma StatementShownAsMessage(query: string, settings: Settings, db: string -> DbOutcome)
    requires Strip(query) != [] && AllowNonSelect(settings) && !IsReadOnlyQuery(query)
    requires db(Strip(query)).Completed?
    ensures var outcome := ExecOutcomeOf(ExecuteQueryPost(Some(Strip(query)), settings, db));
      && outcome.ExecSucceeded?
      && RenderResults(Some(ResultsOf(outcome.data))) == Status(ExecutedMessage)
  {
    ReadOnlyOfStrip(query);
    StripIdempotent(query);
    ExecuteQueryMessage(Some(Strip(query)), settings, db);
  }

  /** When every row carries the columns in header order, the table shows each row's values in place. */
  lemma RowsShownInPlace(columns: seq<string>, rows: seq<Row>)
    requires forall i | 0 <= i < |rows| :: |rows[i]| == |columns| && Keys(rows[i]) == columns && DistinctColumns(rows[i])
    ensures var view := RenderResults(Some(ResultsOf(ExecDataOf(RowsBody(columns, rows)))));
      && view.Grid?
      && forall i, j | 0 <= i < |rows| && 0 <= j < |columns| :: view.body[i][j] == Some(rows[i][j].value)
  {
    var view := RenderResults(Some(ResultsOf(ExecDataOf(RowsBody(columns, rows)))));
    forall i, j | 0 <= i < |rows| && 0 <= j < |columns|
      ensures view.body[i][j] == Some(rows[i][j].value)
    {
      assert Keys(rows[i])[j] == columns[j];
      LookupOfDistinct(rows[i], j);
    }
  }

  /** With distinct names in every row and the same names throughout, each sample cell sits under its own column. */
  lemma SampleCellsUnderTheirHeader(samples: seq<Row>)
    requires forall i | 0 <= i < |samples| :: Keys(samples[i]) == Keys(samples[0]) && DistinctColumns(samples[i])
    ensures var table := RenderSamples(samples);
      forall i, j | 0 <= i < |samples| && 0 <= j < |table.header| ::
        j < |table.body[i]| && Lookup(samples[i], table.header[j]) == Some(table.body[i][j])
  {
    var table := RenderSamples(samples);
    forall i, j | 0 <= i < |samples| && 0 <= j < |table.header|
      ensures j < |table.body[i]| && Lookup(samples[i], table.header[j]) == Some(table.body[i][j])
    {
      assert Keys(samples[i])[j] == samples[i][j].column;
      LookupOfDistinct(samples[i], j);
    }
  }

  /** The schema list shows each PRAGMA row's name and type, with the PK badge exactly on primary-key columns. */
  lemma SchemaShownFromPragma(info: seq<PragmaRow>)
    ensures var items := RenderSchema(BuildSchema(info));
      && |items| == |info|
      && forall i | 0 <= i < |info| ::
           items[i].name == info[i].name && items[i].columnType == info[i].columnType && (items[i].primaryKey <==> info[i].pk != 0)
  {
  }

  /** The page's detail request fetches five samples and reports a missing table as 404. */
  lemma PageRequestsFiveSamples(
    tableName: string,
    settings: Settings,
    pragma: string -> Result<seq<PragmaRow>, string>,
    select: string -> Result<seq<Row>, string>
  )
    ensures var response := TableDetailGet(tableName, Some(PageSampleLimit), settings, pragma, select);
      && (response.status == StatusOk ==> select(SampleStatement(tableName, 5)) == Success(response.body.detail.samples))
      && (response.status == StatusNotFound <==> pragma(PragmaStatement(tableName)) == Success([]))
  {
    PageLimitParses(settings);
    TableDetailNotFound(tableName, Some(PageSampleLimit), settings, pragma, select);
    if TableDetailGet(tableName, Some(PageSampleLimit), settings, pragma, select).status == StatusOk {
      TableDetailFound(tableName, Some(PageSampleLimit), settings, pragma, select);
    }
  }

  /** Two inserted names are joined by one separator. */
  lemma InsertTwoNames(first: string, second: string)
    requires first != []
    ensures AppendTableName(AppendTableName([], first), second) == first + ", " + second
  {
  }

  /** A response with a truthy message is shown as the success line and never as a table; any other as a table. */
  lemma MessageOrTable(data: ExecData)
    ensures RenderResults(Some(ResultsOf(data))).Status? <==> Truthy(data.message)
    ensures RenderResults(Some(ResultsOf(data))).Grid? <==> !Truthy(data.message)
  {
  }

  /** One fruit row under three columns is shown as one row of three cells, in the header's order. */
  lemma FruitsExample(data: ExecData)
    requires data == ExecData(None, Some(["id", "name", "qty"]),
      Some([[Cell("id", Integer(1)), Cell("name", TextValue("apple")), Cell("qty", Integer(10))]]))
    ensures RenderResults(Some(ResultsOf(data))) ==
      Grid(3, 1, ["id", "name", "qty"], [[Some(Integer(1)), Some(TextValue("apple")), Some(Integer(10))]])
  {
    FruitsRowCells(data.rows.value[0], data.columns.value);
    var view := RenderResults(Some(ResultsOf(data)));
    assert view.Grid?;
    assert view.body[0] == [Some(Integer(1)), Some(TextValue("apple")), Some(Integer(10))];
    assert view.body == [view.body[0]];
  }

  lemma FruitsRowCells(row: Row, columns: seq<string>)
    requires row == [Cell("id", Integer(1)), Cell("name", TextValue("apple")), Cell("qty", Integer(10))]
    requires columns == ["id", "name", "qty"]
    ensures Lookup(row, columns[0]) == Some(Integer(1))
    ensures Lookup(row, columns[1]) == Some(TextValue("apple"))
    ensures Lookup(row, columns[2]) == Some(Integer(10))
  {
    assert row[1..][1..][0] == Cell("qty", Integer(10));
  }

  /** After a successful table selection, the panel shows the table's name and one body row per sample returned. */
  lemma SelectedTablePanel(tableName: string, schema: seq<SchemaColumn>, samples: seq<Row>)
    requires tableName != []
    ensures var panel := RenderDetailPanel(Some(tableName), Some(schema), Some(samples));
      && panel.Some? && panel.value.title == tableName
      && panel.value.schema == Some(RenderSchema(schema))
      && panel.value.samples.Some? && |panel.value.samples.value.body| == |samples|
  {
  }
}
