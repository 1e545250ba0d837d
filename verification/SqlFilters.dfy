/** Conjunctions of SQL conditions with numbered placeholders: what a clause means for a row
    under an argument list, and the compilation of conditions that both list queries perform. */
module SqlFilters {
  import opened Prelude
  import opened Text
  import opened Ilike

  // A query argument; placeholder $n refers to the n-th.
  datatype Arg = TextArg(text: string) | InstantArg(at: int) | NumberArg(n: int)

  // A row of the joined query. A column that is absent is NULL.
  datatype SqlRow = SqlRow(
    texts: map<string, string>, instants: map<string, int>,
    documents: map<string, map<string, string>>, tags: map<string, string>)

  function Cell(row: SqlRow, column: string): Option<string> {
    if column in row.texts then Some(row.texts[column]) else None
  }

  function CellOrEmpty(row: SqlRow, column: string): string {
    if column in row.texts then row.texts[column] else ""
  }

  datatype Clause =
    | Equals(column: string, p: nat)                        // column = $p
    | EqualsFolded(column: string, p: nat)                  // lower(coalesce(column, '')) = lower($p)
    | MatchesIlike(column: string, p: nat)                  // column ilike $p
    | TagExists(keyParam: nat, valueParam: nat)             // exists (... key = $k and value = $v)
    | DocumentEquals(column: string, keyParam: nat, valueParam: nat) // column ->> $k = $v
    | BothNull(columnA: string, columnB: string)            // a is null and b is null
    | NotBefore(column: string, p: nat)                     // column >= $p
    | NotAfter(column: string, p: nat)                      // column <= $p

  function TextAt(args: seq<Arg>, p: nat): Option<string> {
    if 1 <= p <= |args| && args[p - 1].TextArg? then Some(args[p - 1].text) else None
  }

  function InstantAt(args: seq<Arg>, p: nat): Option<int> {
    if 1 <= p <= |args| && args[p - 1].InstantArg? then Some(args[p - 1].at) else None
  }

  // A comparison with NULL does not hold.
  predicate Holds(c: Clause, args: seq<Arg>, row: SqlRow) {
    match c
    case Equals(column, p) =>
      TextAt(args, p).Some? && Cell(row, column) == TextAt(args, p)
    case EqualsFolded(column, p) =>
      TextAt(args, p).Some? && ToLower(CellOrEmpty(row, column)) == ToLower(TextAt(args, p).value)
    case MatchesIlike(column, p) =>
      TextAt(args, p).Some? && column in row.texts && ILike(TextAt(args, p).value, row.texts[column])
    case TagExists(k, v) =>
      TextAt(args, k).Some? && TextAt(args, v).Some?
      && TextAt(args, k).value in row.tags && row.tags[TextAt(args, k).value] == TextAt(args, v).value
    case DocumentEquals(column, k, v) =>
      TextAt(args, k).Some? && TextAt(args, v).Some? && column in row.documents
      && TextAt(args, k).value in row.documents[column]
      && row.documents[column][TextAt(args, k).value] == TextAt(args, v).value
    case BothNull(a, b) => a !in row.texts && b !in row.texts
    case NotBefore(column, p) =>
      InstantAt(args, p).Some? && column in row.instants && row.instants[column] >= InstantAt(args, p).value
    case NotAfter(column, p) =>
      InstantAt(args, p).Some? && column in row.instants && row.instants[column] <= InstantAt(args, p).value
  }

  predicate AllHold(clauses: seq<Clause>, args: seq<Arg>, row: SqlRow) {
    forall i :: 0 <= i < |clauses| ==> Holds(clauses[i], args, row)
  }

  datatype Statement = Statement(clauses: seq<Clause>, args: seq<Arg>, limitParam: nat)

  // ---- placeholders ----

  function Placeholders(c: Clause): seq<nat> {
    match c
    case Equals(_, p) => [p]
    case EqualsFolded(_, p) => [p]
    case MatchesIlike(_, p) => [p]
    case TagExists(k, v) => [k, v]
    case DocumentEquals(_, k, v) => [k, v]
    case BothNull(_, _) => []
    case NotBefore(_, p) => [p]
    case NotAfter(_, p) => [p]
  }

  function AllPlaceholders(clauses: seq<Clause>): seq<nat> {
    if clauses == [] then []
    else AllPlaceholders(clauses[..|clauses| - 1]) + Placeholders(clauses[|clauses| - 1])
  }

  function UpTo(n: nat): (r: seq<nat>)
    ensures |r| == n && forall i :: 0 <= i < n ==> r[i] == i + 1
  {
    seq(n, i => i + 1)
  }

  // Read from left to right the placeholders are $1, $2, ... up to the last argument, the limit.
  predicate NumberedInOrder(st: Statement) {
    AllPlaceholders(st.clauses) + [st.limitParam] == UpTo(|st.args|)
  }

  // ---- conditions, without placeholders ----

  datatype Condition =
    | TextIs(column: string, value: string)
    | FoldedIs(column: string, value: string)
    | Like(column: string, pattern: string)
    | TagIs(key: string, value: string)
    | DocumentIs(column: string, key: string, value: string)
    | Neither(columnA: string, columnB: string)
    | Since(column: string, at: int)
    | Until(column: string, at: int)

  predicate Satisfies(row: SqlRow, c: Condition) {
    match c
    case TextIs(column, value) => Cell(row, column) == Some(value)
    case FoldedIs(column, value) => ToLower(CellOrEmpty(row, column)) == ToLower(value)
    case Like(column, pattern) => column in row.texts && ILike(pattern, row.texts[column])
    case TagIs(key, value) => key in row.tags && row.tags[key] == value
    case DocumentIs(column, key, value) =>
      column in row.documents && key in row.documents[column] && row.documents[column][key] == value
    case Neither(a, b) => a !in row.texts && b !in row.texts
    case Since(column, at) => column in row.instants && row.instants[column] >= at
    case Until(column, at) => column in row.instants && row.instants[column] <= at
  }

  predicate SatisfiesAll(row: SqlRow, cs: seq<Condition>) {
    forall i :: 0 <= i < |cs| ==> Satisfies(row, cs[i])
  }

  function ArgsOf(c: Condition): seq<Arg> {
    match c
    case TextIs(_, value) => [TextArg(value)]
    case FoldedIs(_, value) => [TextArg(value)]
    case Like(_, pattern) => [TextArg(pattern)]
    case TagIs(key, value) => [TextArg(key), TextArg(value)]
    case DocumentIs(_, key, value) => [TextArg(key), TextArg(value)]
    case Neither(_, _) => []
    case Since(_, at) => [InstantArg(at)]
    case Until(_, at) => [InstantArg(at)]
  }

  // The clause for a condition when n arguments come before its own.
  function ClauseOf(c: Condition, n: nat): Clause {
    match c
    case TextIs(column, _) => Equals(column, n + 1)
    case FoldedIs(column, _) => EqualsFolded(column, n + 1)
    case Like(column, _) => MatchesIlike(column, n + 1)
    case TagIs(_, _) => TagExists(n + 1, n + 2)
    case DocumentIs(column, _, _) => DocumentEquals(column, n + 1, n + 2)
    case Neither(a, b) => BothNull(a, b)
    case Since(column, _) => NotBefore(column, n + 1)
    case Until(column, _) => NotAfter(column, n + 1)
  }

  function CompiledArgs(cs: seq<Condition>): seq<Arg> {
    if cs == [] then [] else CompiledArgs(cs[..|cs| - 1]) + ArgsOf(cs[|cs| - 1])
  }

  function CompiledClauses(cs: seq<Condition>): (clauses: seq<Clause>)
    ensures |clauses| == |cs|
  {
    if cs == [] then []
    else CompiledClauses(cs[..|cs| - 1]) + [ClauseOf(cs[|cs| - 1], |CompiledArgs(cs[..|cs| - 1])|)]
  }

  // The growing clause and argument lists stand for these conditions so far.
  ghost predicate Compiles(cs: seq<Condition>, clauses: seq<Clause>, args: seq<Arg>) {
    clauses == CompiledClauses(cs) && args == CompiledArgs(cs)
  }

  /** Adding one clause with its arguments adds one condition. */
  lemma CompilesOneMore(cs: seq<Condition>, clauses: seq<Clause>, args: seq<Arg>, c: Condition)
    requires Compiles(cs, clauses, args)
    ensures Compiles(cs + [c], clauses + [ClauseOf(c, |args|)], args + ArgsOf(c))
  {
  }

  // ---- meaning ----

  // A clause reads the arguments at its own placeholders and nowhere else.
  lemma HoldsOfOwnArgs(c: Condition, before: seq<Arg>, after: seq<Arg>, row: SqlRow)
    ensures Holds(ClauseOf(c, |before|), before + ArgsOf(c) + after, row) <==> Satisfies(row, c)
  {
  }

  lemma OneMoreMeans(clauses: seq<Clause>, args: seq<Arg>, cs: seq<Condition>, c: Condition, after: seq<Arg>,
                     row: SqlRow)
    requires AllHold(clauses, args + (ArgsOf(c) + after), row) <==> SatisfiesAll(row, cs)
    ensures AllHold(clauses + [ClauseOf(c, |args|)], args + ArgsOf(c) + after, row) <==> SatisfiesAll(row, cs + [c])
  {
    var all, next := args + ArgsOf(c) + after, ClauseOf(c, |args|);
    assert args + (ArgsOf(c) + after) == all;
    HoldsOfOwnArgs(c, args, after, row);
    assert (clauses + [next])[..|clauses + [next]| - 1] == clauses;
    AllHoldLast(clauses + [next], all, row);
    SatisfiesConcat(row, cs, [c]);
    SatisfiesOne(row, c);
  }

  lemma {:induction false} CompiledMeans(cs: seq<Condition>, after: seq<Arg>, row: SqlRow)
    ensures AllHold(CompiledClauses(cs), CompiledArgs(cs) + after, row) <==> SatisfiesAll(row, cs)
  {
    if cs != [] {
      var front, c := cs[..|cs| - 1], cs[|cs| - 1];
      CompiledMeans(front, ArgsOf(c) + after, row);
      OneMoreMeans(CompiledClauses(front), CompiledArgs(front), front, c, after, row);
      assert front + [c] == cs;
    }
  }

  lemma AllHoldLast(clauses: seq<Clause>, args: seq<Arg>, row: SqlRow)
    requires clauses != []
    ensures AllHold(clauses, args, row) <==>
            AllHold(clauses[..|clauses| - 1], args, row) && Holds(clauses[|clauses| - 1], args, row)
  {
  }

  lemma SatisfiesConcat(row: SqlRow, a: seq<Condition>, b: seq<Condition>)
    ensures SatisfiesAll(row, a + b) <==> SatisfiesAll(row, a) && SatisfiesAll(row, b)
  {
    if SatisfiesAll(row, a + b) {
      forall i | 0 <= i < |a|
        ensures Satisfies(row, a[i])
      {
        assert (a + b)[i] == a[i];
      }
      forall i | 0 <= i < |b|
        ensures Satisfies(row, b[i])
      {
        assert (a + b)[|a| + i] == b[i];
      }
    }
  }

  lemma SatisfiesOne(row: SqlRow, c: Condition)
    ensures SatisfiesAll(row, [c]) <==> Satisfies(row, c)
  {
    assert [c][0] == c;
  }

  lemma AppendedInTurn(before: seq<Condition>, a: seq<Condition>, b: seq<Condition>, c: seq<Condition>,
                       d: seq<Condition>)
    ensures before + a + b + c + d == before + (a + b + c + d)
  {
  }

  lemma NextPlaceholders(c: Condition, n: nat)
    ensures UpTo(n) + Placeholders(ClauseOf(c, n)) == UpTo(n + |ArgsOf(c)|)
  {
  }

  lemma {:induction false} CompiledPlaceholders(cs: seq<Condition>)
    ensures AllPlaceholders(CompiledClauses(cs)) == UpTo(|CompiledArgs(cs)|)
  {
    if cs != [] {
      var front, c := cs[..|cs| - 1], cs[|cs| - 1];
      CompiledPlaceholders(front);
      var clauses := CompiledClauses(cs);
      assert clauses[..|clauses| - 1] == CompiledClauses(front);
      NextPlaceholders(c, |CompiledArgs(front)|);
    }
  }

  // The statement both builders return for a list of conditions.
  function StatementOf(cs: seq<Condition>, limit: int): Statement {
    Statement(CompiledClauses(cs), CompiledArgs(cs) + [NumberArg(limit)], |CompiledArgs(cs)| + 1)
  }

  // The limit takes the placeholder after the last one used.
  lemma LimitIsLast(clauses: seq<Clause>, args: seq<Arg>, limit: Arg)
    requires AllPlaceholders(clauses) == UpTo(|args|)
    ensures NumberedInOrder(Statement(clauses, args + [limit], |args| + 1))
  {
  }

  lemma StatementIsNumbered(cs: seq<Condition>, limit: int)
    ensures NumberedInOrder(StatementOf(cs, limit))
    ensures StatementOf(cs, limit).limitParam == |StatementOf(cs, limit).args|
    ensures StatementOf(cs, limit).args[|CompiledArgs(cs)|] == NumberArg(limit)
  {
    CompiledPlaceholders(cs);
    LimitIsLast(CompiledClauses(cs), CompiledArgs(cs), NumberArg(limit));
  }

  predicate Accepts(st: Statement, row: SqlRow) {
    AllHold(st.clauses, st.args, row)
  }

  /** A compiled statement accepts exactly the rows that satisfy its conditions. */
  lemma StatementMeans(cs: seq<Condition>, limit: int, row: SqlRow)
    ensures Accepts(StatementOf(cs, limit), row) <==> SatisfiesAll(row, cs)
  {
    CompiledMeans(cs, [NumberArg(limit)], row);
  }
}
