/** The issue list query: the statement built step by step, and the rows it accepts. */
module IssueSearch {
  import opened Prelude
  import opened Text
  import opened Ilike
  import opened SqlFilters

  const TARGET_NONE := "none"
  const TARGET_OPERATOR := "operator"
  const TARGET_TEAM := "team"

  const OPERATOR_COLUMN := "i.assignee_operator_id"
  const TEAM_COLUMN := "i.assignee_team_id"

  datatype AssignmentTarget = AssignmentTarget(kind: string, id: string)

  predicate ValidTarget(target: AssignmentTarget) {
    if target.kind == TARGET_NONE then target.id == ""
    else if target.kind == TARGET_OPERATOR || target.kind == TARGET_TEAM then target.id != ""
    else false
  }

  // An empty text, an invalid target and an absent time are filters that are not set.
  datatype IssueSearchFilter = IssueSearchFilter(
    text: string, environment: string, release: string, level: string, tagKey: string, tagValue: string,
    assignee: AssignmentTarget, lastSeenAfter: Option<int>, lastSeenBefore: Option<int>)

  datatype IssueListQuery = IssueListQuery(
    organizationId: string, projectId: string, limit: int, status: string, search: IssueSearchFilter)

  // ---- what the query asks for ----

  predicate AssigneeIs(row: SqlRow, target: AssignmentTarget) {
    if target.kind == TARGET_NONE then Cell(row, OPERATOR_COLUMN) == None && Cell(row, TEAM_COLUMN) == None
    else if target.kind == TARGET_OPERATOR then Cell(row, OPERATOR_COLUMN) == Some(target.id)
    else Cell(row, TEAM_COLUMN) == Some(target.id)
  }

  predicate InScope(row: SqlRow, q: IssueListQuery) {
    && Cell(row, "i.organization_id") == Some(q.organizationId)
    && Cell(row, "i.project_id") == Some(q.projectId)
    && Cell(row, "i.status") == Some(q.status)
  }

  predicate HasDimensions(row: SqlRow, f: IssueSearchFilter) {
    && (f.environment != "" ==> Cell(row, "i.environment") == Some(f.environment))
    && (f.release != "" ==> Cell(row, "i.release") == Some(f.release))
    && (f.level != "" ==> ToLower(CellOrEmpty(row, "e.level")) == ToLower(f.level))
    && (f.text != "" ==> Cell(row, "i.title").Some? && ILike(TextPattern(f.text), row.texts["i.title"]))
  }

  predicate HasTagAndAssignee(row: SqlRow, f: IssueSearchFilter) {
    && (f.tagKey != "" ==> f.tagKey in row.tags && row.tags[f.tagKey] == f.tagValue)
    && (ValidTarget(f.assignee) ==> AssigneeIs(row, f.assignee))
  }

  predicate SeenBetween(row: SqlRow, f: IssueSearchFilter) {
    && (f.lastSeenAfter.Some? ==>
          "i.last_seen_at" in row.instants && row.instants["i.last_seen_at"] >= f.lastSeenAfter.value)
    && (f.lastSeenBefore.Some? ==>
          "i.last_seen_at" in row.instants && row.instants["i.last_seen_at"] <= f.lastSeenBefore.value)
  }

  predicate MatchesQuery(row: SqlRow, q: IssueListQuery) {
    InScope(row, q) && HasDimensions(row, q.search) && HasTagAndAssignee(row, q.search) && SeenBetween(row, q.search)
  }

  // ---- the conditions, in the order the builder adds them ----

  function When(set_: bool, c: Condition): seq<Condition> {
    if set_ then [c] else []
  }

  function AssigneeCondition(target: AssignmentTarget): Condition {
    if target.kind == TARGET_NONE then Neither(OPERATOR_COLUMN, TEAM_COLUMN)
    else if target.kind == TARGET_OPERATOR then TextIs(OPERATOR_COLUMN, target.id)
    else TextIs(TEAM_COLUMN, target.id)
  }

  function ScopeConditions(q: IssueListQuery): seq<Condition> {
    [TextIs("i.organization_id", q.organizationId), TextIs("i.project_id", q.projectId), TextIs("i.status", q.status)]
  }

  function DimensionConditions(f: IssueSearchFilter): seq<Condition> {
    When(f.environment != "", TextIs("i.environment", f.environment))
    + When(f.release != "", TextIs("i.release", f.release))
    + When(f.level != "", FoldedIs("e.level", f.level))
    + When(f.text != "", Like("i.title", TextPattern(f.text)))
  }

  function TagAndAssigneeConditions(f: IssueSearchFilter): seq<Condition> {
    When(f.tagKey != "", TagIs(f.tagKey, f.tagValue))
    + When(ValidTarget(f.assignee), AssigneeCondition(f.assignee))
  }

  function AfterConditions(at: Option<int>): seq<Condition> {
    if at.Some? then [Since("i.last_seen_at", at.value)] else []
  }

  function BeforeConditions(at: Option<int>): seq<Condition> {
    if at.Some? then [Until("i.last_seen_at", at.value)] else []
  }

  function SeenConditions(f: IssueSearchFilter): seq<Condition> {
    AfterConditions(f.lastSeenAfter) + BeforeConditions(f.lastSeenBefore)
  }

  function Conditions(q: IssueListQuery): seq<Condition> {
    ScopeConditions(q) + DimensionConditions(q.search) + TagAndAssigneeConditions(q.search) + SeenConditions(q.search)
  }

  lemma SatisfiesWhen(row: SqlRow, set_: bool, c: Condition)
    ensures SatisfiesAll(row, When(set_, c)) <==> (set_ ==> Satisfies(row, c))
  {
    if set_ { assert When(set_, c)[0] == c; }
  }

  lemma DimensionsMean(row: SqlRow, f: IssueSearchFilter)
    ensures SatisfiesAll(row, DimensionConditions(f)) <==> HasDimensions(row, f)
  {
    var a := When(f.environment != "", TextIs("i.environment", f.environment));
    var b := When(f.release != "", TextIs("i.release", f.release));
    var c := When(f.level != "", FoldedIs("e.level", f.level));
    var d := When(f.text != "", Like("i.title", TextPattern(f.text)));
    SatisfiesConcat(row, a, b);
    SatisfiesConcat(row, a + b, c);
    SatisfiesConcat(row, a + b + c, d);
    SatisfiesWhen(row, f.environment != "", TextIs("i.environment", f.environment));
    SatisfiesWhen(row, f.release != "", TextIs("i.release", f.release));
    SatisfiesWhen(row, f.level != "", FoldedIs("e.level", f.level));
    SatisfiesWhen(row, f.text != "", Like("i.title", TextPattern(f.text)));
  }

  lemma TagAndAssigneeMean(row: SqlRow, f: IssueSearchFilter)
    ensures SatisfiesAll(row, TagAndAssigneeConditions(f)) <==> HasTagAndAssignee(row, f)
  {
    var tag, assignee := TagIs(f.tagKey, f.tagValue), AssigneeCondition(f.assignee);
    SatisfiesConcat(row, When(f.tagKey != "", tag), When(ValidTarget(f.assignee), assignee));
    SatisfiesWhen(row, f.tagKey != "", tag);
    SatisfiesWhen(row, ValidTarget(f.assignee), assignee);
  }

  lemma SeenMean(row: SqlRow, f: IssueSearchFilter)
    ensures SatisfiesAll(row, SeenConditions(f)) <==> SeenBetween(row, f)
  {
    SatisfiesConcat(row, AfterConditions(f.lastSeenAfter), BeforeConditions(f.lastSeenBefore));
    if f.lastSeenAfter.Some? { SatisfiesOne(row, Since("i.last_seen_at", f.lastSeenAfter.value)); }
    if f.lastSeenBefore.Some? { SatisfiesOne(row, Until("i.last_seen_at", f.lastSeenBefore.value)); }
  }

  lemma ScopeMeans(row: SqlRow, q: IssueListQuery)
    ensures SatisfiesAll(row, ScopeConditions(q)) <==> InScope(row, q)
  {
    var cs := ScopeConditions(q);
    assert cs == [cs[0]] + ([cs[1]] + [cs[2]]);
    SatisfiesConcat(row, [cs[0]], [cs[1]] + [cs[2]]);
    SatisfiesConcat(row, [cs[1]], [cs[2]]);
    SatisfiesOne(row, cs[0]);
    SatisfiesOne(row, cs[1]);
    SatisfiesOne(row, cs[2]);
  }

  lemma ConditionsMean(row: SqlRow, q: IssueListQuery)
    ensures SatisfiesAll(row, Conditions(q)) <==> MatchesQuery(row, q)
  {
    var a, b, c, d := ScopeConditions(q), DimensionConditions(q.search), TagAndAssigneeConditions(q.search),
                      SeenConditions(q.search);
    SatisfiesConcat(row, a, b);
    SatisfiesConcat(row, a + b, c);
    SatisfiesConcat(row, a + b + c, d);
    ScopeMeans(row, q);
    DimensionsMean(row, q.search);
    TagAndAssigneeMean(row, q.search);
    SeenMean(row, q.search);
  }

  // ---- the builder ----

  // The clauses and args captured by buildIssueListStatement and its addArg closure.
  class StatementBuilder {
    var clauses: seq<Clause>
    var args: seq<Arg>

    constructor ()
      ensures clauses == [] && args == []
    {
      clauses, args := [], [];
    }

    method AddArg(value: Arg) returns (p: nat)
      modifies this`args
      ensures args == old(args) + [value] && p == |args|
    {
      args := args + [value];
      return |args|;
    }

    method AssigneeClause(target: AssignmentTarget) returns (clause: Clause)
      modifies this`args
      ensures clause == ClauseOf(AssigneeCondition(target), |old(args)|)
      ensures args == old(args) + ArgsOf(AssigneeCondition(target))
    {
      if target.kind == TARGET_NONE { return BothNull(OPERATOR_COLUMN, TEAM_COLUMN); }
      var p;
      if target.kind == TARGET_OPERATOR {
        p := AddArg(TextArg(target.id));
        return Equals(OPERATOR_COLUMN, p);
      }
      p := AddArg(TextArg(target.id));
      return Equals(TEAM_COLUMN, p);
    }

    method AddScope(q: IssueListQuery)
      requires clauses == [] && args == []
      modifies this
      ensures Compiles(ScopeConditions(q), clauses, args)
    {
      args := [TextArg(q.organizationId), TextArg(q.projectId)];
      clauses := [Equals("i.organization_id", 1), Equals("i.project_id", 2)];
      var p := AddArg(TextArg(q.status));
      clauses := clauses + [Equals("i.status", p)];
      ScopeCompiles(q);
    }

    method AddColumn(column: string, value: string, ghost before: seq<Condition>)
      requires Compiles(before, clauses, args)
      modifies this
      ensures Compiles(before + When(value != "", TextIs(column, value)), clauses, args)
    {
      if value != "" {
        CompilesOneMore(before, clauses, args, TextIs(column, value));
        var p := AddArg(TextArg(value));
        clauses := clauses + [Equals(column, p)];
      } else {
        assert before + [] == before;
      }
    }

    method AddLevel(level: string, ghost before: seq<Condition>)
      requires Compiles(before, clauses, args)
      modifies this
      ensures Compiles(before + When(level != "", FoldedIs("e.level", level)), clauses, args)
    {
      if level != "" {
        CompilesOneMore(before, clauses, args, FoldedIs("e.level", level));
        var p := AddArg(TextArg(level));
        clauses := clauses + [EqualsFolded("e.level", p)];
      } else {
        assert before + [] == before;
      }
    }

    method AddText(text: string, ghost before: seq<Condition>)
      requires Compiles(before, clauses, args)
      modifies this
      ensures Compiles(before + When(text != "", Like("i.title", TextPattern(text))), clauses, args)
    {
      if text != "" {
        CompilesOneMore(before, clauses, args, Like("i.title", TextPattern(text)));
        var p := AddArg(TextArg("%" + text + "%"));
        clauses := clauses + [MatchesIlike("i.title", p)];
      } else {
        assert before + [] == before;
      }
    }

    method AddDimensions(f: IssueSearchFilter, ghost before: seq<Condition>)
      requires Compiles(before, clauses, args)
      modifies this
      ensures Compiles(before + DimensionConditions(f), clauses, args)
    {
      ghost var a := When(f.environment != "", TextIs("i.environment", f.environment));
      ghost var b := When(f.release != "", TextIs("i.release", f.release));
      ghost var c := When(f.level != "", FoldedIs("e.level", f.level));
      ghost var d := When(f.text != "", Like("i.title", TextPattern(f.text)));
      AddColumn("i.environment", f.environment, before);
      AddColumn("i.release", f.release, before + a);
      AddLevel(f.level, before + a + b);
      AddText(f.text, before + a + b + c);
      AppendedInTurn(before, a, b, c, d);
    }

    method AddTagAndAssignee(f: IssueSearchFilter, ghost before: seq<Condition>)
      requires Compiles(before, clauses, args)
      modifies this
      ensures Compiles(before + TagAndAssigneeConditions(f), clauses, args)
    {
      ghost var cs := before;
      if f.tagKey != "" {
        CompilesOneMore(cs, clauses, args, TagIs(f.tagKey, f.tagValue));
        ghost var was := args;
        var tagKeyArg := AddArg(TextArg(f.tagKey));
        var tagValueArg := AddArg(TextArg(f.tagValue));
        clauses := clauses + [TagExists(tagKeyArg, tagValueArg)];
        cs := cs + [TagIs(f.tagKey, f.tagValue)];
        assert args == was + ArgsOf(TagIs(f.tagKey, f.tagValue));
      }
      if ValidTarget(f.assignee) {
        CompilesOneMore(cs, clauses, args, AssigneeCondition(f.assignee));
        var clause := AssigneeClause(f.assignee);
        clauses := clauses + [clause];
        cs := cs + [AssigneeCondition(f.assignee)];
      }
      assert cs == before + TagAndAssigneeConditions(f);
    }

    method AddAfter(at: Option<int>, ghost before: seq<Condition>)
      requires Compiles(before, clauses, args)
      modifies this
      ensures Compiles(before + AfterConditions(at), clauses, args)
    {
      if at.Some? {
        CompilesOneMore(before, clauses, args, Since("i.last_seen_at", at.value));
        var p := AddArg(InstantArg(at.value));
        clauses := clauses + [NotBefore("i.last_seen_at", p)];
      } else {
        assert before + [] == before;
      }
    }

    method AddBefore(at: Option<int>, ghost before: seq<Condition>)
      requires Compiles(before, clauses, args)
      modifies this
      ensures Compiles(before + BeforeConditions(at), clauses, args)
    {
      if at.Some? {
        CompilesOneMore(before, clauses, args, Until("i.last_seen_at", at.value));
        var p := AddArg(InstantArg(at.value));
        clauses := clauses + [NotAfter("i.last_seen_at", p)];
      } else {
        assert before + [] == before;
      }
    }

    method AddSeen(f: IssueSearchFilter, ghost before: seq<Condition>)
      requires Compiles(before, clauses, args)
      modifies this
      ensures Compiles(before + SeenConditions(f), clauses, args)
    {
      AddAfter(f.lastSeenAfter, before);
      AddBefore(f.lastSeenBefore, before + AfterConditions(f.lastSeenAfter));
      assert before + AfterConditions(f.lastSeenAfter) + BeforeConditions(f.lastSeenBefore)
          == before + SeenConditions(f);
    }

    method AddFilters(q: IssueListQuery)
      requires clauses == [] && args == []
      modifies this
      ensures Compiles(Conditions(q), clauses, args)
    {
      ghost var scope, dimensions, tag := ScopeConditions(q), DimensionConditions(q.search), TagAndAssigneeConditions(q.search);
      AddScope(q);
      AddDimensions(q.search, scope);
      AddTagAndAssignee(q.search, scope + dimensions);
      AddSeen(q.search, scope + dimensions + tag);
    }
  }

  lemma ScopeCompiles(q: IssueListQuery)
    ensures Compiles(ScopeConditions(q),
                     [Equals("i.organization_id", 1), Equals("i.project_id", 2)] + [Equals("i.status", 3)],
                     [TextArg(q.organizationId), TextArg(q.projectId)] + [TextArg(q.status)])
  {
    var cs := ScopeConditions(q);
    CompilesOneMore([], [], [], cs[0]);
    CompilesOneMore([] + [cs[0]], [] + [ClauseOf(cs[0], 0)], [] + ArgsOf(cs[0]), cs[1]);
    var two, clauses, args := [cs[0], cs[1]], [Equals("i.organization_id", 1), Equals("i.project_id", 2)],
                              [TextArg(q.organizationId), TextArg(q.projectId)];
    assert [] + [cs[0]] + [cs[1]] == two;
    assert [] + [ClauseOf(cs[0], 0)] + [ClauseOf(cs[1], 1)] == clauses;
    assert [] + ArgsOf(cs[0]) + ArgsOf(cs[1]) == args;
    CompilesOneMore(two, clauses, args, cs[2]);
    assert two + [cs[2]] == cs;
  }

  lemma ConditionsAccept(q: IssueListQuery)
    ensures forall row :: Accepts(StatementOf(Conditions(q), q.limit), row) <==> MatchesQuery(row, q)
  {
    forall row
      ensures Accepts(StatementOf(Conditions(q), q.limit), row) <==> MatchesQuery(row, q)
    {
      StatementMeans(Conditions(q), q.limit, row);
      ConditionsMean(row, q);
    }
  }

  lemma CompiledStatement(q: IssueListQuery, st: Statement, clauses: seq<Clause>, args: seq<Arg>)
    requires Compiles(Conditions(q), clauses, args)
    requires st == Statement(clauses, args + [NumberArg(q.limit)], |args| + 1)
    ensures forall row :: Accepts(st, row) <==> MatchesQuery(row, q)
    ensures NumberedInOrder(st) && st.limitParam == |st.args| && st.args[|st.args| - 1] == NumberArg(q.limit)
  {
    assert st == StatementOf(Conditions(q), q.limit);
    StatementIsNumbered(Conditions(q), q.limit);
    ConditionsAccept(q);
  }

  /** The built statement accepts a row exactly when the row is in scope and satisfies every set
      filter; each argument has exactly one placeholder, in order, and the limit the last. */
  method BuildIssueListStatement(q: IssueListQuery) returns (st: Statement)
    ensures forall row :: Accepts(st, row) <==> MatchesQuery(row, q)
    ensures NumberedInOrder(st) && st.limitParam == |st.args| && st.args[|st.args| - 1] == NumberArg(q.limit)
  {
    var b := new StatementBuilder();
    b.AddFilters(q);
    ghost var args := b.args;
    var limitArg := b.AddArg(NumberArg(q.limit));
    st := Statement(b.clauses, b.args, limitArg);
    CompiledStatement(q, st, b.clauses, args);
  }
}
