/** The log list query: the statement that the two appenders build, and the rows it accepts. */
module LogSearch {
  import opened Prelude
  import opened Text
  import opened SqlFilters

  datatype AttributeFilter = AttributeFilter(key: string, value: string)

  datatype LogQuery = LogQuery(
    organizationId: string, projectId: string, limit: int,
    severity: string, logger: string, environment: string, release: string,
    resourceAttribute: AttributeFilter, logAttribute: AttributeFilter)

  // ---- what the query asks for ----

  predicate Blank(value: string) {
    TrimSpace(value) == ""
  }

  predicate ColumnMatches(row: SqlRow, column: string, value: string) {
    !Blank(value) ==> Cell(row, column) == Some(TrimSpace(value))
  }

  // An attribute filter is set only when both halves are.
  predicate AttributeMatches(row: SqlRow, column: string, f: AttributeFilter) {
    !Blank(f.key) && !Blank(f.value) ==>
      && column in row.documents
      && TrimSpace(f.key) in row.documents[column]
      && row.documents[column][TrimSpace(f.key)] == TrimSpace(f.value)
  }

  predicate ColumnsMatch(row: SqlRow, q: LogQuery) {
    && ColumnMatches(row, "severity", q.severity)
    && ColumnMatches(row, "logger", q.logger)
    && ColumnMatches(row, "environment", q.environment)
    && ColumnMatches(row, "release", q.release)
  }

  predicate MatchesLog(row: SqlRow, q: LogQuery) {
    && Cell(row, "organization_id") == Some(q.organizationId)
    && Cell(row, "project_id") == Some(q.projectId)
    && ColumnsMatch(row, q)
    && AttributeMatches(row, "resource_attributes", q.resourceAttribute)
    && AttributeMatches(row, "attributes", q.logAttribute)
  }

  // ---- the builder ----

  // The two slices that every appender takes and returns.
  datatype Built = Built(clauses: seq<Clause>, args: seq<Arg>)

  function AppendTextFilter(b: Built, column: string, value: string): Built {
    if TrimSpace(value) == "" then b
    else
      var args := b.args + [TextArg(TrimSpace(value))];
      Built(b.clauses + [Equals(column, |args|)], args)
  }

  function AppendJsonFilter(b: Built, column: string, f: AttributeFilter): Built {
    if TrimSpace(f.key) == "" || TrimSpace(f.value) == "" then b
    else
      var keyed := b.args + [TextArg(TrimSpace(f.key))];
      var args := keyed + [TextArg(TrimSpace(f.value))];
      Built(b.clauses + [DocumentEquals(column, |keyed|, |args|)], args)
  }

  function ScopeFilter(q: LogQuery): Built {
    Built([Equals("organization_id", 1), Equals("project_id", 2)], [TextArg(q.organizationId), TextArg(q.projectId)])
  }

  function TextFilters(b: Built, q: LogQuery): Built {
    var b1 := AppendTextFilter(b, "severity", q.severity);
    var b2 := AppendTextFilter(b1, "logger", q.logger);
    var b3 := AppendTextFilter(b2, "environment", q.environment);
    AppendTextFilter(b3, "release", q.release)
  }

  function JsonFilters(b: Built, q: LogQuery): Built {
    var b1 := AppendJsonFilter(b, "resource_attributes", q.resourceAttribute);
    AppendJsonFilter(b1, "attributes", q.logAttribute)
  }

  function LogListStatement(q: LogQuery): Statement {
    var b := JsonFilters(TextFilters(ScopeFilter(q), q), q);
    var args := b.args + [NumberArg(q.limit)];
    Statement(b.clauses, args, |args|)
  }

  // ---- the conditions each appender adds ----

  function TextCondition(column: string, value: string): seq<Condition> {
    if Blank(value) then [] else [TextIs(column, TrimSpace(value))]
  }

  function JsonCondition(column: string, f: AttributeFilter): seq<Condition> {
    if Blank(f.key) || Blank(f.value) then [] else [DocumentIs(column, TrimSpace(f.key), TrimSpace(f.value))]
  }

  function ScopeConditions(q: LogQuery): seq<Condition> {
    [TextIs("organization_id", q.organizationId), TextIs("project_id", q.projectId)]
  }

  function TextConditions(q: LogQuery): seq<Condition> {
    TextCondition("severity", q.severity) + TextCondition("logger", q.logger)
    + TextCondition("environment", q.environment) + TextCondition("release", q.release)
  }

  function JsonConditions(q: LogQuery): seq<Condition> {
    JsonCondition("resource_attributes", q.resourceAttribute) + JsonCondition("attributes", q.logAttribute)
  }

  function Conditions(q: LogQuery): seq<Condition> {
    ScopeConditions(q) + TextConditions(q) + JsonConditions(q)
  }

  ghost predicate Stands(cs: seq<Condition>, b: Built) {
    Compiles(cs, b.clauses, b.args)
  }

  lemma TextFilterCompiles(cs: seq<Condition>, b: Built, column: string, value: string)
    requires Stands(cs, b)
    ensures Stands(cs + TextCondition(column, value), AppendTextFilter(b, column, value))
  {
    if Blank(value) {
      assert cs + [] == cs;
    } else {
      CompilesOneMore(cs, b.clauses, b.args, TextIs(column, TrimSpace(value)));
    }
  }

  lemma JsonFilterCompiles(cs: seq<Condition>, b: Built, column: string, f: AttributeFilter)
    requires Stands(cs, b)
    ensures Stands(cs + JsonCondition(column, f), AppendJsonFilter(b, column, f))
  {
    if Blank(f.key) || Blank(f.value) {
      assert cs + [] == cs;
    } else {
      var c := DocumentIs(column, TrimSpace(f.key), TrimSpace(f.value));
      CompilesOneMore(cs, b.clauses, b.args, c);
      assert b.args + [TextArg(TrimSpace(f.key))] + [TextArg(TrimSpace(f.value))] == b.args + ArgsOf(c);
    }
  }

  lemma ScopeCompiles(q: LogQuery)
    ensures Stands(ScopeConditions(q), ScopeFilter(q))
  {
    var cs := ScopeConditions(q);
    CompilesOneMore([], [], [], cs[0]);
    CompilesOneMore([] + [cs[0]], [] + [ClauseOf(cs[0], 0)], [] + ArgsOf(cs[0]), cs[1]);
    assert [] + [cs[0]] + [cs[1]] == cs;
    assert [] + [ClauseOf(cs[0], 0)] + [ClauseOf(cs[1], 1)] == ScopeFilter(q).clauses;
    assert [] + ArgsOf(cs[0]) + ArgsOf(cs[1]) == ScopeFilter(q).args;
  }

  lemma TextFiltersCompile(cs: seq<Condition>, b: Built, q: LogQuery)
    requires Stands(cs, b)
    ensures Stands(cs + TextConditions(q), TextFilters(b, q))
  {
    var a1, a2 := TextCondition("severity", q.severity), TextCondition("logger", q.logger);
    var a3, a4 := TextCondition("environment", q.environment), TextCondition("release", q.release);
    var b1 := AppendTextFilter(b, "severity", q.severity);
    var b2 := AppendTextFilter(b1, "logger", q.logger);
    var b3 := AppendTextFilter(b2, "environment", q.environment);
    TextFilterCompiles(cs, b, "severity", q.severity);
    TextFilterCompiles(cs + a1, b1, "logger", q.logger);
    TextFilterCompiles(cs + a1 + a2, b2, "environment", q.environment);
    TextFilterCompiles(cs + a1 + a2 + a3, b3, "release", q.release);
    AppendedInTurn(cs, a1, a2, a3, a4);
  }

  lemma JsonFiltersCompile(cs: seq<Condition>, b: Built, q: LogQuery)
    requires Stands(cs, b)
    ensures Stands(cs + JsonConditions(q), JsonFilters(b, q))
  {
    var a1 := JsonCondition("resource_attributes", q.resourceAttribute);
    var a2 := JsonCondition("attributes", q.logAttribute);
    var b1 := AppendJsonFilter(b, "resource_attributes", q.resourceAttribute);
    var b2 := AppendJsonFilter(b1, "attributes", q.logAttribute);
    JsonFilterCompiles(cs, b, "resource_attributes", q.resourceAttribute);
    JsonFilterCompiles(cs + a1, b1, "attributes", q.logAttribute);
    StandsForBoth(cs, a1, a2, b2);
  }

  lemma StandsForBoth(cs: seq<Condition>, a1: seq<Condition>, a2: seq<Condition>, b: Built)
    requires Stands(cs + a1 + a2, b)
    ensures Stands(cs + (a1 + a2), b)
  {
    assert cs + a1 + a2 == cs + (a1 + a2);
  }

  lemma StatementCompiles(q: LogQuery)
    ensures LogListStatement(q) == StatementOf(Conditions(q), q.limit)
  {
    ScopeCompiles(q);
    TextFiltersCompile(ScopeConditions(q), ScopeFilter(q), q);
    JsonFiltersCompile(ScopeConditions(q) + TextConditions(q), TextFilters(ScopeFilter(q), q), q);
  }

  // ---- meaning ----

  lemma TextConditionMeans(row: SqlRow, column: string, value: string)
    ensures SatisfiesAll(row, TextCondition(column, value)) <==> ColumnMatches(row, column, value)
  {
    if !Blank(value) { SatisfiesOne(row, TextIs(column, TrimSpace(value))); }
  }

  lemma JsonConditionMeans(row: SqlRow, column: string, f: AttributeFilter)
    ensures SatisfiesAll(row, JsonCondition(column, f)) <==> AttributeMatches(row, column, f)
  {
    if !Blank(f.key) && !Blank(f.value) {
      SatisfiesOne(row, DocumentIs(column, TrimSpace(f.key), TrimSpace(f.value)));
    }
  }

  lemma TextConditionsMean(row: SqlRow, q: LogQuery)
    ensures SatisfiesAll(row, TextConditions(q)) <==> ColumnsMatch(row, q)
  {
    var a1, a2 := TextCondition("severity", q.severity), TextCondition("logger", q.logger);
    var a3, a4 := TextCondition("environment", q.environment), TextCondition("release", q.release);
    SatisfiesConcat(row, a1, a2);
    SatisfiesConcat(row, a1 + a2, a3);
    SatisfiesConcat(row, a1 + a2 + a3, a4);
    TextConditionMeans(row, "severity", q.severity);
    TextConditionMeans(row, "logger", q.logger);
    TextConditionMeans(row, "environment", q.environment);
    TextConditionMeans(row, "release", q.release);
  }

  lemma ConditionsMean(row: SqlRow, q: LogQuery)
    ensures SatisfiesAll(row, Conditions(q)) <==> MatchesLog(row, q)
  {
    var scope := ScopeConditions(q);
    SatisfiesConcat(row, scope, TextConditions(q));
    SatisfiesConcat(row, scope + TextConditions(q), JsonConditions(q));
    assert scope == [scope[0]] + [scope[1]];
    SatisfiesConcat(row, [scope[0]], [scope[1]]);
    SatisfiesOne(row, scope[0]);
    SatisfiesOne(row, scope[1]);
    TextConditionsMean(row, q);
    SatisfiesConcat(row, JsonCondition("resource_attributes", q.resourceAttribute),
                                JsonCondition("attributes", q.logAttribute));
    JsonConditionMeans(row, "resource_attributes", q.resourceAttribute);
    JsonConditionMeans(row, "attributes", q.logAttribute);
  }

  /** The log list statement accepts a row exactly when the row is in scope and satisfies every
      filter that is not blank; its placeholders run through the arguments, the limit last. */
  lemma LogListMeans(q: LogQuery, row: SqlRow)
    ensures Accepts(LogListStatement(q), row) <==> MatchesLog(row, q)
    ensures NumberedInOrder(LogListStatement(q))
    ensures LogListStatement(q).limitParam == |LogListStatement(q).args|
    ensures LogListStatement(q).args[|LogListStatement(q).args| - 1] == NumberArg(q.limit)
  {
    StatementCompiles(q);
    StatementIsNumbered(Conditions(q), q.limit);
    StatementMeans(Conditions(q), q.limit, row);
    ConditionsMean(row, q);
  }
}
