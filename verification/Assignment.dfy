/** Issue assignment: one transaction that overwrites both assignee columns of an issue, and
    what the assignee filter of the issue search then finds. */
module Assignment {
  import opened Prelude
  import opened Text
  import opened SqlFilters
  import opened IssueSearch

  datatype IssueKey = IssueKey(organizationId: string, projectId: string, issueId: string)

  // assignee_operator_id and assignee_team_id of an issues row; None is NULL.
  datatype Assignees = Assignees(operator: Option<string>, team: Option<string>)

  datatype AssignCommand = AssignCommand(key: IssueKey, actorId: string, target: AssignmentTarget)

  // The membership tables as the transaction sees them; they may differ from one command to the next.
  datatype Directory = Directory(
    projectMembers: set<(string, string, string)>, activeOperators: set<string>,
    projectTeams: set<(string, string, string)>)

  // The database call that fails during a command, if one does.
  datatype Stage = Begin | FindIssue | FindMember | Update | Audit | Commit

  datatype AssignError = ScopeRequired | IssueRequired | ActorRequired | TargetInvalid | NoRows | Database(at: Stage)

  const NO_TARGET := AssignmentTarget(TARGET_NONE, "")
  const UNASSIGNED := Assignees(None, None)

  predicate Eligible(target: AssignmentTarget, key: IssueKey, d: Directory) {
    if target.kind == TARGET_NONE then true
    else if target.kind == TARGET_OPERATOR then
      (key.organizationId, key.projectId, target.id) in d.projectMembers && target.id in d.activeOperators
    else
      target.kind == TARGET_TEAM && (key.organizationId, key.projectId, target.id) in d.projectTeams
  }

  // A fault while looking up the target's membership needs a target that has one.
  predicate Interrupted(target: AssignmentTarget, fault: Option<Stage>) {
    fault.Some? && (fault.value.FindMember? ==> target.kind != TARGET_NONE)
  }

  function NullableUuid(value: string): Option<string> {
    if value == "" then None else Some(value)
  }

  function ColumnsOf(target: AssignmentTarget): Assignees {
    Assignees(NullableUuid(if target.kind == TARGET_OPERATOR then target.id else ""),
              NullableUuid(if target.kind == TARGET_TEAM then target.id else ""))
  }

  predicate Commits(issues: map<IssueKey, Assignees>, c: AssignCommand, d: Directory, fault: Option<Stage>) {
    !Interrupted(c.target, fault) && c.key in issues && Eligible(c.target, c.key, d)
  }

  predicate WellFormed(c: AssignCommand) {
    && c.key.organizationId != "" && c.key.projectId != "" && c.key.issueId != ""
    && c.actorId != "" && ValidTarget(c.target)
  }

  class IssueStore {
    var issues: map<IssueKey, Assignees>

    constructor (existing: map<IssueKey, Assignees>)
      ensures issues == existing
    {
      issues := existing;
    }

    // Eligibility kind by kind, read off the directory's tables.
    method RequireEligibility(c: AssignCommand, d: Directory, fault: Option<Stage>) returns (r: Option<AssignError>)
      ensures fault != Some(FindIssue) && fault != Some(FindMember) ==>
                (r == None <==>
                  && c.key in issues
                  && (c.target.kind == "none"
                      || (c.target.kind == "operator"
                          && (c.key.organizationId, c.key.projectId, c.target.id) in d.projectMembers
                          && c.target.id in d.activeOperators)
                      || (c.target.kind == "team"
                          && (c.key.organizationId, c.key.projectId, c.target.id) in d.projectTeams)))
      ensures fault == Some(FindIssue) ==> r == Some(Database(FindIssue))
      ensures fault == Some(FindMember) ==> (r == None <==> c.key in issues && c.target.kind == "none")
      ensures r.Some? && !r.value.Database? ==> r.value == NoRows || r.value == TargetInvalid
      ensures r == Some(TargetInvalid) <==>
              fault != Some(FindIssue) && c.key in issues && c.target.kind !in {"none", "operator", "team"}
    {
      if fault == Some(FindIssue) { return Some(Database(FindIssue)); }
      if c.key !in issues { return Some(NoRows); }
      if c.target.kind == TARGET_NONE { return None; }
      if c.target.kind == TARGET_OPERATOR || c.target.kind == TARGET_TEAM {
        if fault == Some(FindMember) { return Some(Database(FindMember)); }
        if !Eligible(c.target, c.key, d) { return Some(NoRows); }
        return None;
      }
      return Some(TargetInvalid);
    }

    // The adapter's transaction: either every effect is kept or none is.
    method AssignIssue(c: AssignCommand, d: Directory, fault: Option<Stage>)
      returns (r: Result<(string, AssignmentTarget), AssignError>)
      modifies this
      ensures r.Ok? <==> Commits(old(issues), c, d, fault)
      ensures r.Ok? ==> r.value == (c.key.issueId, c.target) && issues == old(issues)[c.key := ColumnsOf(c.target)]
      ensures r.Err? ==> issues == old(issues)
      ensures r.Ok? && c.target.kind == "operator" ==>
                (c.key.organizationId, c.key.projectId, c.target.id) in d.projectMembers && c.target.id in d.activeOperators
      ensures r.Ok? && c.target.kind == "team" ==> (c.key.organizationId, c.key.projectId, c.target.id) in d.projectTeams
      ensures r.Ok? ==> c.target.kind in {"none", "operator", "team"}
      ensures r.Err? && !r.error.Database? ==> r.error == NoRows || r.error == TargetInvalid
    {
      if fault == Some(Begin) { return Err(Database(Begin)); }
      var ineligible := RequireEligibility(c, d, fault);
      if ineligible.Some? { return Err(ineligible.value); }
      if fault == Some(Update) { return Err(Database(Update)); }
      var written := UpdatedAssignment(c);
      if fault == Some(Audit) { return Err(Database(Audit)); }
      if fault == Some(Commit) { return Err(Database(Commit)); }
      issues := written;
      return Ok((c.key.issueId, c.target));
    }

    // The rows as the update statement leaves them inside the transaction.
    method UpdatedAssignment(c: AssignCommand) returns (rows: map<IssueKey, Assignees>)
      ensures rows == issues[c.key := ColumnsOf(c.target)]
    {
      var operatorId, teamId := "", "";
      if c.target.kind == TARGET_OPERATOR { operatorId := c.target.id; }
      if c.target.kind == TARGET_TEAM { teamId := c.target.id; }
      rows := issues[c.key := Assignees(NullableUuid(operatorId), NullableUuid(teamId))];
    }

    // The application's command, which checks its parts before it reaches the store.
    method Assign(c: AssignCommand, d: Directory, fault: Option<Stage>)
      returns (r: Result<(string, AssignmentTarget), AssignError>)
      modifies this
      ensures r.Ok? <==> Accepted(old(issues), Step(c, d, fault))
      ensures issues == After(old(issues), Step(c, d, fault))
      ensures r.Ok? ==> c.target == AssignmentTarget("none", "")
                        || ((c.target.kind == "operator" || c.target.kind == "team") && c.target.id != "")
      ensures r == Err(ScopeRequired) <==> c.key.organizationId == "" || c.key.projectId == ""
      ensures r == Err(IssueRequired) <==> c.key.organizationId != "" && c.key.projectId != "" && c.key.issueId == ""
      ensures r == Err(ActorRequired) <==>
              c.key.organizationId != "" && c.key.projectId != "" && c.key.issueId != "" && c.actorId == ""
    {
      if c.key.organizationId == "" || c.key.projectId == "" { return Err(ScopeRequired); }
      if c.key.issueId == "" { return Err(IssueRequired); }
      if c.actorId == "" { return Err(ActorRequired); }
      if !ValidTarget(c.target) { return Err(TargetInvalid); }
      r := AssignIssue(c, d, fault);
    }
  }

  // ---- runs of commands ----

  datatype Step = Step(command: AssignCommand, directory: Directory, fault: Option<Stage>)

  predicate Accepted(issues: map<IssueKey, Assignees>, s: Step) {
    WellFormed(s.command) && Commits(issues, s.command, s.directory, s.fault)
  }

  function After(issues: map<IssueKey, Assignees>, s: Step): map<IssueKey, Assignees> {
    if Accepted(issues, s) then issues[s.command.key := ColumnsOf(s.command.target)] else issues
  }

  function AfterRun(issues: map<IssueKey, Assignees>, steps: seq<Step>): map<IssueKey, Assignees> {
    if steps == [] then issues else After(AfterRun(issues, steps[..|steps| - 1]), steps[|steps| - 1])
  }

  // The target of the last command on this issue that succeeded.
  function LastTarget(issues: map<IssueKey, Assignees>, steps: seq<Step>, key: IssueKey): AssignmentTarget {
    if steps == [] then NO_TARGET
    else
      var front, last := steps[..|steps| - 1], steps[|steps| - 1];
      if Accepted(AfterRun(issues, front), last) && last.command.key == key then last.command.target
      else LastTarget(issues, front, key)
  }

  /** From an unassigned issue on, the columns are those of the last successful target. */
  lemma {:induction false} ColumnsFollowLastTarget(issues: map<IssueKey, Assignees>, steps: seq<Step>, key: IssueKey)
    requires key in issues && issues[key] == UNASSIGNED
    ensures AfterRun(issues, steps).Keys == issues.Keys
    ensures ValidTarget(LastTarget(issues, steps, key))
    ensures AfterRun(issues, steps)[key] == ColumnsOf(LastTarget(issues, steps, key))
  {
    if steps != [] {
      ColumnsFollowLastTarget(issues, steps[..|steps| - 1], key);
    }
  }

  /** At most one assignee column is ever set. */
  lemma {:induction false} AtMostOneAssignee(issues: map<IssueKey, Assignees>, steps: seq<Step>, key: IssueKey)
    requires key in issues && issues[key] == UNASSIGNED
    ensures key in AfterRun(issues, steps)
    ensures AfterRun(issues, steps)[key].operator == None || AfterRun(issues, steps)[key].team == None
  {
    ColumnsFollowLastTarget(issues, steps, key);
  }

  /** A command that fails, and a command on another issue, leaves the last target in place. */
  lemma OtherCommandsKeepTarget(issues: map<IssueKey, Assignees>, steps: seq<Step>, s: Step, key: IssueKey)
    requires key in issues && issues[key] == UNASSIGNED
    requires !Accepted(AfterRun(issues, steps), s) || s.command.key != key
    ensures LastTarget(issues, steps + [s], key) == LastTarget(issues, steps, key)
    ensures key in AfterRun(issues, steps) && key in AfterRun(issues, steps + [s])
    ensures AfterRun(issues, steps + [s])[key] == AfterRun(issues, steps)[key]
  {
    assert (steps + [s])[..|steps + [s]| - 1] == steps;
    ColumnsFollowLastTarget(issues, steps, key);
  }

  // Step i set this issue's assignee, and its directory had the operator as an active member.
  ghost predicate OperatorCameFrom(issues: map<IssueKey, Assignees>, steps: seq<Step>, i: nat, key: IssueKey, id: string) {
    && i < |steps| && Accepted(AfterRun(issues, steps[..i]), steps[i]) && steps[i].command.key == key
    && steps[i].command.target == AssignmentTarget("operator", id)
    && (key.organizationId, key.projectId, id) in steps[i].directory.projectMembers
    && id in steps[i].directory.activeOperators
  }

  ghost predicate TeamCameFrom(issues: map<IssueKey, Assignees>, steps: seq<Step>, i: nat, key: IssueKey, id: string) {
    && i < |steps| && Accepted(AfterRun(issues, steps[..i]), steps[i]) && steps[i].command.key == key
    && steps[i].command.target == AssignmentTarget("team", id)
    && (key.organizationId, key.projectId, id) in steps[i].directory.projectTeams
  }

  /** Every assignee an issue has after a run was put there by a command whose directory had the
      operator as an active member of that very project, or the team in it. */
  lemma {:induction false} AssigneesWereEligible(issues: map<IssueKey, Assignees>, steps: seq<Step>, key: IssueKey)
    returns (i: nat)
    requires key in issues && issues[key] == UNASSIGNED
    ensures key in AfterRun(issues, steps)
    ensures AfterRun(issues, steps)[key].operator.Some? ==>
              OperatorCameFrom(issues, steps, i, key, AfterRun(issues, steps)[key].operator.value)
    ensures AfterRun(issues, steps)[key].team.Some? ==>
              TeamCameFrom(issues, steps, i, key, AfterRun(issues, steps)[key].team.value)
  {
    i := 0;
    if steps != [] {
      var front, last := steps[..|steps| - 1], steps[|steps| - 1];
      i := AssigneesWereEligible(issues, front, key);
      if Accepted(AfterRun(issues, front), last) && last.command.key == key {
        i := |steps| - 1;
      } else if i < |front| {
        assert front[..i] == steps[..i];
      }
    }
  }

  // A row of the issue query shows the assignee columns of its issue.
  predicate Shows(row: SqlRow, columns: Assignees) {
    Cell(row, OPERATOR_COLUMN) == columns.operator && Cell(row, TEAM_COLUMN) == columns.team
  }

  lemma FilterMatchesOwnTarget(row: SqlRow, held: AssignmentTarget, wanted: AssignmentTarget)
    requires ValidTarget(held) && ValidTarget(wanted) && Shows(row, ColumnsOf(held))
    ensures AssigneeIs(row, wanted) <==> wanted == held
  {
  }

  /** The assignee filter for a target finds an issue exactly when that target is the one of the
      issue's last successful assignment, whatever commands failed or hit other issues. */
  lemma FilterFindsLastAssignment(issues: map<IssueKey, Assignees>, steps: seq<Step>, key: IssueKey,
                                  row: SqlRow, wanted: AssignmentTarget, limit: int)
    requires key in issues && issues[key] == UNASSIGNED && ValidTarget(wanted)
    requires key in AfterRun(issues, steps) && Shows(row, AfterRun(issues, steps)[key])
    ensures Accepts(StatementOf([AssigneeCondition(wanted)], limit), row) <==> wanted == LastTarget(issues, steps, key)
  {
    ColumnsFollowLastTarget(issues, steps, key);
    FilterMatchesOwnTarget(row, LastTarget(issues, steps, key), wanted);
    StatementMeans([AssigneeCondition(wanted)], limit, row);
    SatisfiesOne(row, AssigneeCondition(wanted));
  }

  function WithoutAssignee(q: IssueListQuery): IssueListQuery {
    q.(search := q.search.(assignee := AssignmentTarget("", "")))
  }

  /** In a whole issue query the assignee filter narrows the answer by the last assignment only. */
  lemma {:induction false} SearchNarrowsToLastAssignment(issues: map<IssueKey, Assignees>, steps: seq<Step>, key: IssueKey,
                                      row: SqlRow, q: IssueListQuery)
    requires key in issues && issues[key] == UNASSIGNED && ValidTarget(q.search.assignee)
    requires key in AfterRun(issues, steps) && Shows(row, AfterRun(issues, steps)[key])
    ensures MatchesQuery(row, q) <==>
            MatchesQuery(row, WithoutAssignee(q)) && q.search.assignee == LastTarget(issues, steps, key)
  {
    ColumnsFollowLastTarget(issues, steps, key);
    FilterMatchesOwnTarget(row, LastTarget(issues, steps, key), q.search.assignee);
  }

  // ---- the textual form of a target ----

  function TargetText(target: AssignmentTarget): string {
    if target.kind == TARGET_NONE then TARGET_NONE else target.kind + [':'] + target.id
  }

  function ParseTarget(input: string): Option<AssignmentTarget> {
    if input == TARGET_NONE then Some(NO_TARGET)
    else
      var colon := IndexOf(':', input);
      if colon == |input| || input[colon + 1..] == "" then None
      else
        var target := AssignmentTarget(input[..colon], input[colon + 1..]);
        if ValidTarget(target) then Some(target) else None
  }

  // The first position of c, or the length when there is none.
  function IndexOf(c: char, s: string): (i: nat)
    ensures i <= |s| && (i < |s| ==> s[i] == c) && forall j :: 0 <= j < i ==> s[j] != c
  {
    if s == "" || s[0] == c then 0 else 1 + IndexOf(c, s[1..])
  }

  /** A target survives printing and parsing exactly when it is valid; an operator or a team is
      printed as its kind, a colon and its identifier. */
  lemma TargetTextRoundTrip(target: AssignmentTarget)
    ensures target.kind == "operator" || target.kind == "team" ==> TargetText(target) == target.kind + ":" + target.id
    ensures TargetText(NO_TARGET) == "none"
    ensures ParseTarget(TargetText(target)) == Some(target)
        <==> target == AssignmentTarget("none", "")
             || ((target.kind == "operator" || target.kind == "team") && target.id != "")
    ensures ParseTarget(TargetText(target)) == Some(target) <==> ValidTarget(target)
  {
    assert ':' !in TARGET_NONE && ':' !in TARGET_OPERATOR && ':' !in TARGET_TEAM;
    var text := TargetText(target);
    if target.kind == TARGET_OPERATOR || target.kind == TARGET_TEAM {
      var n := |target.kind|;
      assert text[n] == ':' && text[..n] == target.kind && text[n + 1..] == target.id;
      assert forall j :: 0 <= j < n ==> text[j] == target.kind[j];
    }
  }
}
