/**
 * The SQL gate and rewrite of the query runner (`sqlrunner/utils.py`): which statements
 * count as read-only, how a read-only statement gets a row limit appended before it is
 * run, what `execute_query` returns for each kind of statement, and how the schema of a
 * table is built from `PRAGMA table_info`. The database itself is a parameter: a function
 * from the exact statement text to what the database does with it.
 */
module SqlRunnerUtils {
  import opened Wrappers
  import opened Text
  import opened Records

  /** The first words that make a statement read-only. */
  const AllowedReadOnlyPrefixes: seq<string> := ["select"]

  /** The default `limit` argument of `execute_query`. */
  const DefaultRowLimit: int := 1000

  /** The default `sample_limit` argument of `table_schema_and_samples`. */
  const DefaultSampleLimit: int := 10

  /** The exceptions `table_schema_and_samples` and `execute_query` let escape. */
  datatype Exception = ValueError(message: string) | DatabaseError(message: string) {
    /** `str(e)` */
    function Str(): string {
      message
    }
  }

  /** What `execute_query` returns: rows first, then the column names. */
  datatype Execution = Execution(rows: seq<Row>, columns: seq<string>)

  /**
   * `is_read_only_query`: the text is not blank and its first whitespace-separated word,
   * lower-cased, is one of the allowed prefixes.
   */
  predicate IsReadOnlyQuery(sql: string) {
    if sql == [] || Strip(sql) == [] then false
    else Lower(FirstWord(Strip(sql))) in AllowedReadOnlyPrefixes
  }

  /** The statement `execute_query` runs for `sql` (the local `sql_to_run`). */
  function RewriteQuery(sql: string, limit: int): string {
    var sqlToRun := Strip(sql);
    if IsReadOnlyQuery(sqlToRun) && !Contains(Lower(sqlToRun), "limit") then
      RStrip(sqlToRun, ';') + " LIMIT " + IntToString(limit) + ";"
    else
      sqlToRun
  }

  /**
   * `execute_query(sql, limit=limit)`: runs the rewritten statement; a read-only one
   * gives back the rows and columns, any other is committed and gives two empty lists.
   */
  function ExecuteQuery(sql: string, limit: int, db: string -> DbOutcome): Result<Execution, string> {
    var sqlToRun := RewriteQuery(sql, limit);
    match db(sqlToRun)
    case Failed(message) => Failure(message)
    case Completed(rows, columns) =>
      if IsReadOnlyQuery(sqlToRun) then Success(Execution(rows, columns)) else Success(Execution([], []))
  }

  /** The schema query; the table name sits between a fixed head and tail, unquoted. */
  function PragmaStatement(tableName: string): (r: string)
    ensures |r| == |tableName| + 20
    ensures r[..18] == "PRAGMA table_info(" && r[18..|r| - 2] == tableName && r[|r| - 2..] == ");"
  {
    "PRAGMA table_info(" + tableName + ");"
  }

  /** The sample query: the unquoted table name, then the limit in decimal. */
  function SampleStatement(tableName: string, sampleLimit: int): (r: string)
    ensures |r| == |tableName| + |IntToString(sampleLimit)| + 22
    ensures r[..14] == "SELECT * FROM " && r[14..14 + |tableName|] == tableName
    ensures r[14 + |tableName|..] == " LIMIT " + IntToString(sampleLimit) + ";"
  {
    "SELECT * FROM " + tableName + " LIMIT " + IntToString(sampleLimit) + ";"
  }

  /** The `ValueError` text for an unknown table; it names the table. */
  function NotFoundMessage(tableName: string): (r: string)
    ensures |r| == |tableName| + 18
    ensures r[..7] == "Table '" && r[7..|r| - 11] == tableName && r[|r| - 11..] == "' not found"
  {
    "Table '" + tableName + "' not found"
  }

  /** Python's `bool(n)` for an integer. */
  function IntToBool(n: int): bool {
    n != 0
  }

  function ToSchemaColumn(c: PragmaRow): SchemaColumn {
    SchemaColumn(c.cid, c.name, c.columnType, IntToBool(c.notnull), c.dfltValue, IntToBool(c.pk))
  }

  /** The list comprehension that turns `PRAGMA table_info` rows into schema entries. */
  function BuildSchema(info: seq<PragmaRow>): (schema: seq<SchemaColumn>)
    ensures |schema| == |info|
    ensures forall i | 0 <= i < |info| ::
      && schema[i].cid == info[i].cid && schema[i].name == info[i].name
      && schema[i].columnType == info[i].columnType && schema[i].dfltValue == info[i].dfltValue
      && (schema[i].notnull <==> info[i].notnull != 0)
      && (schema[i].pk <==> info[i].pk != 0)
  {
    if info == [] then [] else [ToSchemaColumn(info[0])] + BuildSchema(info[1..])
  }

  /**
   * `table_schema_and_samples(table_name, sample_limit)`: the schema from `PRAGMA
   * table_info`, a not-found ValueError when that gives no rows, then the sample rows.
   */
  function TableSchemaAndSamples(
    tableName: string,
    sampleLimit: int,
    pragma: string -> Result<seq<PragmaRow>, string>,
    select: string -> Result<seq<Row>, string>
  ): (r: Result<TableDetail, Exception>)
    ensures r.Success? ==>
      && pragma(PragmaStatement(tableName)).Success?
      && r.value.schema == BuildSchema(pragma(PragmaStatement(tableName)).value)
      && select(SampleStatement(tableName, sampleLimit)) == Success(r.value.samples)
    ensures r.Failure? && r.error.ValueError? <==> pragma(PragmaStatement(tableName)) == Success([])
    ensures r.Failure? && r.error.ValueError? ==> r.error.message == NotFoundMessage(tableName)
    ensures pragma(PragmaStatement(tableName)).Failure? ==>
      r == Failure(DatabaseError(pragma(PragmaStatement(tableName)).error))
    ensures var info := pragma(PragmaStatement(tableName));
      var samples := select(SampleStatement(tableName, sampleLimit));
      info.Success? && info.value != [] && samples.Success? ==>
        r == Success(TableDetail(BuildSchema(info.value), samples.value))
    ensures var info := pragma(PragmaStatement(tableName));
      var samples := select(SampleStatement(tableName, sampleLimit));
      info.Success? && info.value != [] && samples.Failure? ==>
        r == Failure(DatabaseError(samples.error))
  {
    match pragma(PragmaStatement(tableName))
    case Failure(message) => Failure(DatabaseError(message))
    case Success(info) =>
      if info == [] then Failure(ValueError(NotFoundMessage(tableName)))
      else
        var schema := BuildSchema(info);
        match select(SampleStatement(tableName, sampleLimit))
        case Failure(message) => Failure(DatabaseError(message))
        case Success(rows) => Success(TableDetail(schema, rows))
  }

  // ---------------------------------------------------------------------------
  // Classification

  /** Leading whitespace before a word is dropped by strip. */
  lemma StripSkipsLeading(w: string, word: string, rest: string)
    requires AllWhitespace(w) && word != [] && NoWhitespace(word)
    ensures Strip(w + word + rest) == TrimEnd(word + rest)
  {
    ConcatAssoc(w, word, rest);
    TrimStartPadded(w, word + rest);
  }

  /** Trailing whitespace never eats into a word that ends without whitespace. */
  lemma TrimEndKeepsWord(word: string, rest: string)
    requires word != [] && NoWhitespace(word)
    ensures |TrimEnd(word + rest)| >= |word|
  {
    var s := word + rest;
    var m := TrimEnd(s);
    TrimEndSpec(s);
    forall i | |m| <= i < |s|
      ensures IsWhitespace(s[i])
    {
      assert s[|m|..][i - |m|] == s[i];
    }
    assert s[|word| - 1] == word[|word| - 1];
  }

  lemma TrimEndOfWordForm(word: string, rest: string) returns (tail: string)
    requires word != [] && NoWhitespace(word)
    requires rest == [] || IsWhitespace(rest[0])
    ensures TrimEnd(word + rest) == word + tail
    ensures tail == [] || IsWhitespace(tail[0])
  {
    TrimEndKeepsWord(word, rest);
    TrimEndSpec(word + rest);
    var m := TrimEnd(word + rest);
    tail := m[|word|..];
    PrefixOfConcat(word, rest, m);
    if tail != [] {
      assert tail[0] == m[|word|] == (word + rest)[|word|] == rest[0];
    }
  }

  /** A prefix of `a + b` at least as long as `a` is `a` followed by a prefix of `b`. */
  lemma PrefixOfConcat(a: string, b: string, m: string)
    requires |a| <= |m| <= |a + b| && m == (a + b)[..|m|]
    ensures m == a + m[|a|..]
  {
  }

  /** The stripped form of "whitespace, a word, then nothing or whitespace and more" starts with that word. */
  lemma StripOfWordForm(w: string, word: string, rest: string) returns (tail: string)
    requires AllWhitespace(w) && word != [] && NoWhitespace(word)
    requires rest == [] || IsWhitespace(rest[0])
    ensures Strip(w + word + rest) == word + tail
    ensures tail == [] || IsWhitespace(tail[0])
  {
    StripSkipsLeading(w, word, rest);
    tail := TrimEndOfWordForm(word, rest);
  }

  /** A text that begins with a word followed by nothing or whitespace has that word first. */
  lemma FirstWordOfWordForm(t: string, word: string, tail: string)
    requires t == word + tail && word != [] && NoWhitespace(word)
    requires tail == [] || IsWhitespace(tail[0])
    ensures FirstWord(t) == word
  {
    ConcatEmpty(t);
    TrimStartPadded([], t);
    TakeWordOf(word, tail);
  }

  /** Once the first word of the stripped text is known, the classification is a test on that word alone. */
  lemma ReadOnlyOfKnownWord(sql: string, word: string)
    requires Strip(sql) != [] && FirstWord(Strip(sql)) == word
    ensures IsReadOnlyQuery(sql) <==> Lower(word) == "select"
  {
  }

  /** The first word, lower-cased, decides: whatever whitespace comes before it and whatever follows it. */
  lemma ReadOnlyByFirstWord(sql: string, w: string, word: string, rest: string)
    requires sql == w + word + rest
    requires AllWhitespace(w) && word != [] && NoWhitespace(word)
    requires rest == [] || IsWhitespace(rest[0])
    ensures IsReadOnlyQuery(sql) <==> Lower(word) == "select"
  {
    var tail := StripOfWordForm(w, word, rest);
    FirstWordOfWordForm(Strip(sql), word, tail);
    ReadOnlyOfKnownWord(sql, word);
  }

  lemma LeadingSplit(sql: string) returns (w: string, t: string)
    requires !AllWhitespace(sql)
    ensures sql == w + t && AllWhitespace(w) && t == TrimStart(sql) && t != [] && !IsWhitespace(t[0])
  {
    t := TrimStart(sql);
    TrimStartSpec(sql);
    w := sql[..|sql| - |t|];
    SplitAt(sql, |sql| - |t|);
    if t == [] {
      ConcatEmpty(w);
    }
  }

  lemma WordSplit(t: string) returns (word: string, rest: string)
    requires t != [] && !IsWhitespace(t[0])
    ensures t == word + rest && word == TakeWord(t) && word != [] && NoWhitespace(word)
    ensures rest == [] || IsWhitespace(rest[0])
  {
    word := TakeWord(t);
    TakeWordSpec(t);
    assert word == [t[0]] + TakeWord(t[1..]);
    rest := t[|word|..];
    SplitAt(t, |word|);
  }

  /** Every text that is not blank is whitespace, a first word, then nothing or whitespace and more. */
  lemma FirstWordSplit(sql: string) returns (w: string, word: string, rest: string)
    requires !AllWhitespace(sql)
    ensures sql == w + word + rest && word == FirstWord(sql)
    ensures AllWhitespace(w) && word != [] && NoWhitespace(word)
    ensures rest == [] || IsWhitespace(rest[0])
  {
    var t;
    w, t := LeadingSplit(sql);
    word, rest := WordSplit(t);
    ConcatAssoc(w, word, rest);
  }

  /** Blank text, the empty string included, is never read-only. */
  lemma BlankIsNotReadOnly(sql: string)
    requires AllWhitespace(sql)
    ensures !IsReadOnlyQuery(sql)
  {
    StripEmptyIffBlank(sql);
  }

  /** A query is read-only exactly when it is not blank and its first word, lower-cased, is "select". */
  lemma ReadOnlyIffFirstWordIsSelect(sql: string)
    ensures IsReadOnlyQuery(sql) <==> !AllWhitespace(sql) && Lower(FirstWord(sql)) == "select"
  {
    if AllWhitespace(sql) {
      BlankIsNotReadOnly(sql);
    } else {
      var w, word, rest := FirstWordSplit(sql);
      ReadOnlyByFirstWord(sql, w, word, rest);
    }
  }

  /** A semicolon glued to the keyword makes a different first word. */
  lemma GluedSemicolonIsNotReadOnly(sql: string)
    requires sql == "select;"
    ensures !IsReadOnlyQuery(sql)
  {
    ConcatEmpty(sql);
    ReadOnlyByFirstWord(sql, [], sql, []);
  }

  /** Without a space after the keyword the first word is longer than "select". */
  lemma UnspacedKeywordIsNotReadOnly(sql: string)
    requires sql == "SELECT*FROM t"
    ensures !IsReadOnlyQuery(sql)
  {
    ReadOnlyByFirstWord(sql, [], "SELECT*FROM", " t");
  }

  lemma PaddedMixedCaseIsReadOnly(sql: string)
    requires sql == "  SeLeCt x "
    ensures IsReadOnlyQuery(sql)
  {
    assert Lower("SeLeCt") == "select";
    ReadOnlyByFirstWord(sql, "  ", "SeLeCt", " x ");
  }

  /** Only the first word counts: a statement that selects further on is not read-only. */
  lemma LaterSelectIsNotReadOnly(sql: string)
    requires sql == "EXPLAIN SELECT 1"
    ensures !IsReadOnlyQuery(sql)
  {
    ReadOnlyByFirstWord(sql, [], "EXPLAIN", " SELECT 1");
  }

  /** `str.lower()` changes neither length nor which characters are whitespace. */
  lemma LowerKeepsWhitespace(s: string)
    ensures |Lower(s)| == |s|
    ensures AllWhitespace(s) ==> AllWhitespace(Lower(s))
    ensures NoWhitespace(s) ==> NoWhitespace(Lower(s))
    ensures s != [] && IsWhitespace(s[0]) ==> IsWhitespace(Lower(s)[0])
  {
  }

  lemma LowerIdempotent(s: string)
    ensures Lower(Lower(s)) == Lower(s)
  {
  }

  lemma LowerOfSplit(w: string, word: string, rest: string)
    ensures Lower(w + word + rest) == Lower(w) + Lower(word) + Lower(rest)
  {
    LowerConcat(w, word);
    LowerConcat(w + word, rest);
  }

  lemma LowerOfBlank(sql: string)
    requires AllWhitespace(Lower(sql))
    ensures AllWhitespace(sql)
  {
    forall i | 0 <= i < |sql| ensures IsWhitespace(sql[i]) {
      assert IsWhitespace(Lower(sql)[i]);
    }
  }

  /** Read-only classification depends only on the lower-cased text. */
  lemma ReadOnlyOfLower(sql: string)
    ensures IsReadOnlyQuery(Lower(sql)) == IsReadOnlyQuery(sql)
  {
    if AllWhitespace(sql) {
      BlankIsNotReadOnly(sql);
      LowerKeepsWhitespace(sql);
      BlankIsNotReadOnly(Lower(sql));
    } else {
      var w, word, rest := FirstWordSplit(sql);
      ReadOnlyByFirstWord(sql, w, word, rest);
      LowerOfSplit(w, word, rest);
      LowerKeepsWhitespace(w);
      LowerKeepsWhitespace(word);
      LowerKeepsWhitespace(rest);
      ReadOnlyByFirstWord(Lower(sql), Lower(w), Lower(word), Lower(rest));
      LowerIdempotent(word);
    }
  }

  /** Letter case does not matter: two texts equal up to case are classified alike. */
  lemma ReadOnlyIgnoresCase(a: string, b: string)
    requires Lower(a) == Lower(b)
    ensures IsReadOnlyQuery(a) == IsReadOnlyQuery(b)
  {
    ReadOnlyOfLower(a);
    ReadOnlyOfLower(b);
  }

  /** Leading and trailing whitespace does not matter. */
  lemma ReadOnlyIgnoresPadding(w1: string, sql: string, w2: string)
    requires AllWhitespace(w1) && AllWhitespace(w2)
    ensures IsReadOnlyQuery(w1 + sql + w2) == IsReadOnlyQuery(sql)
  {
    StripIgnoresPadding(w1, sql, w2);
  }

  lemma ReadOnlyOfStrip(sql: string)
    ensures IsReadOnlyQuery(Strip(sql)) == IsReadOnlyQuery(sql)
  {
    StripIdempotent(sql);
  }

  // ---------------------------------------------------------------------------
  // Rewriting

  /** The rewrite applies to a read-only text whose lower-cased form has no "limit" anywhere. */
  predicate GetsLimit(sql: string) {
    IsReadOnlyQuery(sql) && !Contains(Lower(Strip(sql)), "limit")
  }

  /** The text appended by the rewrite. */
  function LimitClause(limit: int): string {
    " LIMIT " + IntToString(limit) + ";"
  }

  /** A stripped, non-empty text is its first word followed by nothing or by whitespace and more. */
  lemma StrippedWordSplit(t: string) returns (word: string, tail: string)
    requires t != [] && Stripped(t)
    ensures t == word + tail && word == FirstWord(t)
    ensures word != [] && NoWhitespace(word)
    ensures tail == [] || IsWhitespace(tail[0])
  {
    word, tail := WordSplit(t);
    FirstWordOfWordForm(t, word, tail);
  }

  /** `rstrip(c)` keeps at least every character up to one that is not `c`. */
  lemma RStripKeeps(s: string, c: char, k: nat)
    requires 0 < k <= |s| && s[k - 1] != c
    ensures k <= |RStrip(s, c)|
  {
    RStripSpec(s, c);
  }

  /** A read-only query strips to a non-empty text with no whitespace at either end. */
  lemma ReadOnlyStripped(sql: string)
    requires IsReadOnlyQuery(sql)
    ensures Strip(sql) != [] && Stripped(Strip(sql))
  {
    var _, _ := StripSplit(sql);
  }

  /** The first word of a read-only text, lower-cased, is "select". */
  lemma ReadOnlyWord(t: string, word: string, tail: string)
    requires IsReadOnlyQuery(t)
    requires t == word + tail && word != [] && NoWhitespace(word)
    requires tail == [] || IsWhitespace(tail[0])
    ensures Lower(word) == "select" && |word| == 6 && LowerChar(word[5]) == 't'
  {
    ConcatEmpty(t);
    ReadOnlyByFirstWord(t, [], word, tail);
    assert Lower(word)[5] == 't';
  }

  /** The stripped text of a query that gets a limit: its first word spells "select" in some case. */
  lemma LimitedQueryWord(sql: string) returns (word: string, tail: string)
    requires IsReadOnlyQuery(sql)
    ensures Strip(sql) == word + tail && word == FirstWord(Strip(sql))
    ensures NoWhitespace(word) && Lower(word) == "select" && |word| == 6 && LowerChar(word[5]) == 't'
    ensures tail == [] || IsWhitespace(tail[0])
  {
    var t := Strip(sql);
    ReadOnlyStripped(sql);
    word, tail := StrippedWordSplit(t);
    ReadOnlyOfStrip(sql);
    ReadOnlyWord(t, word, tail);
  }

  /** The part of the stripped text the rewrite keeps still begins with the same first word. */
  lemma KeptPart(sql: string) returns (word: string, tail: string)
    requires IsReadOnlyQuery(sql)
    ensures RStrip(Strip(sql), ';') == word + tail
    ensures word == FirstWord(Strip(sql)) && NoWhitespace(word) && Lower(word) == "select" && |word| == 6
    ensures tail == [] || IsWhitespace(tail[0])
  {
    var t := Strip(sql);
    var tail0;
    word, tail0 := LimitedQueryWord(sql);
    KeptPartOf(t, word, tail0);
    tail := RStrip(t, ';')[|word|..];
  }

  lemma KeptPartOf(t: string, word: string, tail0: string)
    requires t == word + tail0 && |word| == 6 && LowerChar(word[5]) == 't'
    requires tail0 == [] || IsWhitespace(tail0[0])
    ensures var kept := RStrip(t, ';'); |word| <= |kept| && kept == word + kept[|word|..]
    ensures var tail := RStrip(t, ';')[|word|..]; tail == [] || IsWhitespace(tail[0])
  {
    assert t[5] == word[5];
    RStripKeeps(t, ';', 6);
    RStripSpec(t, ';');
    var kept := RStrip(t, ';');
    PrefixOfConcat(word, tail0, kept);
    var tail := kept[|word|..];
    if tail != [] {
      assert tail[0] == kept[6] == t[6] == tail0[0];
    }
  }

  /**
   * When the rewrite applies, the statement run is the stripped text with every trailing
   * semicolon removed, then " LIMIT <limit>;"; the part kept is not empty and still starts
   * with the same first word.
   */
  lemma RewriteAppendsLimit(sql: string, limit: int) returns (kept: string)
    requires GetsLimit(sql)
    ensures RewriteQuery(sql, limit) == kept + " LIMIT " + IntToString(limit) + ";"
    ensures |kept| <= |Strip(sql)| && kept == Strip(sql)[..|kept|] && kept != [] && kept[|kept| - 1] != ';'
    ensures forall i | |kept| <= i < |Strip(sql)| :: Strip(sql)[i] == ';'
    ensures FirstWord(kept) == FirstWord(Strip(sql))
  {
    RewriteWhenLimited(sql, limit);
    var word, tail := KeptPart(sql);
    kept := RStrip(Strip(sql), ';');
    RStripSpec(Strip(sql), ';');
    FirstWordOfWordForm(kept, word, tail);
  }

  lemma RewriteWhenLimited(sql: string, limit: int)
    requires GetsLimit(sql)
    ensures RewriteQuery(sql, limit) == RStrip(Strip(sql), ';') + " LIMIT " + IntToString(limit) + ";"
  {
    ReadOnlyOfStrip(sql);
  }

  /** When the rewrite does not apply, the statement run is just the stripped text. */
  lemma RewriteKeepsOthers(sql: string, limit: int)
    requires !GetsLimit(sql)
    ensures RewriteQuery(sql, limit) == Strip(sql)
  {
    ReadOnlyOfStrip(sql);
    StripIdempotent(sql);
  }

  /** The rewritten statement, as its first word and what follows it. */
  lemma RewrittenWordSplit(sql: string, limit: int) returns (word: string, tail: string)
    requires GetsLimit(sql)
    ensures RewriteQuery(sql, limit) == word + tail
    ensures word != [] && NoWhitespace(word) && Lower(word) == "select"
    ensures tail != [] && IsWhitespace(tail[0]) && tail[|tail| - 1] == ';'
  {
    var rest;
    word, rest := KeptPart(sql);
    RewriteWhenLimited(sql, limit);
    tail := rest + LimitClause(limit);
    ConcatAssoc(word, rest, LimitClause(limit));
    ConcatAssoc(word + rest, " LIMIT " + IntToString(limit), ";");
    ConcatAssoc(word + rest, " LIMIT ", IntToString(limit));
  }

  /** The text "limit" occurs in every rewritten read-only statement, in some case. */
  lemma RewriteMentionsLimit(sql: string, limit: int)
    requires IsReadOnlyQuery(sql)
    ensures Contains(Lower(RewriteQuery(sql, limit)), "limit")
  {
    if GetsLimit(sql) {
      var kept := RewriteAppendsLimit(sql, limit);
      var r := RewriteQuery(sql, limit);
      ConcatAssoc(kept, " LIMIT " + IntToString(limit), ";");
      ConcatAssoc(kept, " LIMIT ", IntToString(limit));
      ConcatAssoc(kept, " LIMIT ", IntToString(limit) + ";");
      assert r == kept + (" LIMIT " + (IntToString(limit) + ";"));
      ContainsLimitAfter(kept, IntToString(limit) + ";");
    } else {
      RewriteKeepsOthers(sql, limit);
    }
  }

  lemma ContainsLimitAfter(a: string, b: string)
    ensures Contains(Lower(a + (" LIMIT " + b)), "limit")
  {
    LowerConcat(a, " LIMIT " + b);
    LowerConcat(" LIMIT ", b);
    var l := Lower(a + (" LIMIT " + b));
    assert l[|a| + 1..|a| + 6] == "limit";
    ContainsAt(l, "limit", |a| + 1);
  }

  /** The statement run is its own stripped form. */
  lemma RewriteIsStripped(sql: string, limit: int)
    ensures Strip(RewriteQuery(sql, limit)) == RewriteQuery(sql, limit)
  {
    if GetsLimit(sql) {
      var word, tail := RewrittenWordSplit(sql, limit);
      var r := RewriteQuery(sql, limit);
      assert r[0] == word[0] && r[|r| - 1] == tail[|tail| - 1];
      ConcatEmpty(r);
      StripPadded([], r, []);
    } else {
      RewriteKeepsOthers(sql, limit);
      StripIdempotent(sql);
    }
  }

  /** Line 39 agrees with line 32: the rewrite keeps the read-only classification. */
  lemma RewritePreservesReadOnly(sql: string, limit: int)
    ensures IsReadOnlyQuery(RewriteQuery(sql, limit)) == IsReadOnlyQuery(sql)
  {
    if GetsLimit(sql) {
      var word, tail := RewrittenWordSplit(sql, limit);
      ConcatEmpty(word + tail);
      ReadOnlyByFirstWord(RewriteQuery(sql, limit), [], word, tail);
    } else {
      RewriteKeepsOthers(sql, limit);
      ReadOnlyOfStrip(sql);
    }
  }

  /** Rewriting twice gives the same statement as rewriting once, whatever the second limit. */
  lemma RewriteIdempotent(sql: string, limit: int, limit': int)
    ensures RewriteQuery(RewriteQuery(sql, limit), limit') == RewriteQuery(sql, limit)
  {
    var r := RewriteQuery(sql, limit);
    RewriteIsStripped(sql, limit);
    RewritePreservesReadOnly(sql, limit);
    if IsReadOnlyQuery(sql) {
      RewriteMentionsLimit(sql, limit);
    }
    RewriteKeepsOthers(r, limit');
  }

  // ---------------------------------------------------------------------------
  // Execution

  /** A statement that is not read-only runs unchanged apart from stripping and yields no rows and no columns. */
  lemma ExecuteNonReadOnly(sql: string, limit: int, db: string -> DbOutcome)
    requires !IsReadOnlyQuery(sql)
    ensures ExecuteQuery(sql, limit, db) == match db(Strip(sql))
      case Failed(message) => Failure(message)
      case Completed(_, _) => Success(Execution([], []))
  {
    RewriteKeepsOthers(sql, limit);
    ReadOnlyOfStrip(sql);
  }

  /** A read-only statement yields exactly the rows and columns the database gives for the rewritten text. */
  lemma ExecuteReadOnly(sql: string, limit: int, db: string -> DbOutcome)
    requires IsReadOnlyQuery(sql)
    ensures ExecuteQuery(sql, limit, db) == match db(RewriteQuery(sql, limit))
      case Failed(message) => Failure(message)
      case Completed(rows, columns) => Success(Execution(rows, columns))
  {
    RewritePreservesReadOnly(sql, limit);
  }

  /** A plain SELECT of a whole table is one the rewrite applies to, unchanged up to the appended clause. */
  lemma UsersQueryGetsLimit(sql: string)
    requires sql == "SELECT * FROM users"
    ensures GetsLimit(sql) && RStrip(Strip(sql), ';') == sql
  {
    UsersQueryShape(sql);
    UsersQueryLower(sql);
    UsersQueryHasNoLimit("select * from users");
  }

  lemma UsersQueryShape(sql: string)
    requires sql == "SELECT * FROM users"
    ensures Strip(sql) == sql && RStrip(sql, ';') == sql && IsReadOnlyQuery(sql)
  {
    StrippedKept(sql);
    LeadingSelectIsReadOnly(sql, " * FROM users");
  }

  lemma UsersQueryLower(sql: string)
    requires sql == "SELECT * FROM users"
    ensures Lower(sql) == "select * from users"
  {
    LowerConcat("SELECT * FROM", " users");
    assert Lower("SELECT * FROM") == "select * from";
  }

  lemma UsersQueryHasNoLimit(text: string)
    requires text == "select * from users"
    ensures !Contains(text, "limit")
  {
    NotContainsWithoutChar(text, "limit", 1);
  }

  /** "limit" inside a table name is enough to suppress the row limit: the check is a plain substring test. */
  lemma LimitInNameSkipsRowLimit(sql: string, limit: int)
    requires sql == "SELECT * FROM unlimited"
    ensures IsReadOnlyQuery(sql) && RewriteQuery(sql, limit) == sql
  {
    UnlimitedShape(sql);
    UnlimitedLower(sql);
    UnlimitedContainsLimit("select * from unlimited");
    RewriteKeepsOthers(sql, limit);
  }

  lemma UnlimitedShape(sql: string)
    requires sql == "SELECT * FROM unlimited"
    ensures Strip(sql) == sql && IsReadOnlyQuery(sql)
  {
    StrippedKept(sql);
    LeadingSelectIsReadOnly(sql, " * FROM unlimited");
  }

  lemma UnlimitedLower(sql: string)
    requires sql == "SELECT * FROM unlimited"
    ensures Lower(sql) == "select * from unlimited"
  {
    LowerConcat("SELECT * FROM", " unlimited");
    assert Lower("SELECT * FROM") == "select * from";
  }

  lemma UnlimitedContainsLimit(text: string)
    requires text == "select * from unlimited"
    ensures Contains(text, "limit")
  {
    assert text[16..21] == "limit";
    ContainsAt(text, "limit", 16);
  }

  /** A text without whitespace at either end is its own stripped form. */
  lemma StrippedKept(sql: string)
    requires Stripped(sql)
    ensures Strip(sql) == sql
  {
    ConcatEmpty(sql);
    StripPadded([], sql, []);
  }

  /** A text that starts with the word SELECT, followed by whitespace, is read-only. */
  lemma LeadingSelectIsReadOnly(sql: string, rest: string)
    requires sql == "SELECT" + rest && rest != [] && IsWhitespace(rest[0])
    ensures IsReadOnlyQuery(sql)
  {
    assert Lower("SELECT") == "select";
    assert sql == [] + "SELECT" + rest;
    ReadOnlyByFirstWord(sql, [], "SELECT", rest);
  }

  // ---------------------------------------------------------------------------
  // Schema

  /** A table whose PRAGMA gives no rows is reported missing, whatever the sample query would have done. */
  lemma NotFoundBeforeSamples(
    tableName: string,
    sampleLimit: int,
    pragma: string -> Result<seq<PragmaRow>, string>,
    select: string -> Result<seq<Row>, string>,
    select': string -> Result<seq<Row>, string>
  )
    requires pragma(PragmaStatement(tableName)) == Success([])
    ensures TableSchemaAndSamples(tableName, sampleLimit, pragma, select) == Failure(ValueError(NotFoundMessage(tableName)))
    ensures TableSchemaAndSamples(tableName, sampleLimit, pragma, select) == TableSchemaAndSamples(tableName, sampleLimit, pragma, select')
  {
  }
}
