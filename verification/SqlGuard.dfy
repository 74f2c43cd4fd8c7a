/** The SQL guard over an abstract query tree: what it accepts, what the accepted query can read,
    and what its row cap does to the result. */
module SqlGuard {
  import opened Wrappers
  import opened Text

  // ------------------------------------------------------------ query trees

  /** A LIMIT or FETCH clause: absent, an integer literal, or anything else. `n` is the number of rows it denotes;
      `shown` is the integer its node's name reads as, if any. The name of a node is the text of its first operand
      when that is a literal: `LIMIT 1 + 1000000` denotes 1000001, in an engine that accepts it, and shows 1.
      `FETCH FIRST 5 ROWS ONLY` denotes 5 and shows none, since its node has no `expression`. */
  datatype Limit = NoLimit | LimitLiteral(n: nat) | LimitComputed(n: nat, shown: Option<int>)

  /** `int(existing.expression.name)`, or nothing when that raises. */
  function Shown(limit: Limit): Option<int> {
    match limit
    case NoLimit => None
    case LimitLiteral(n) => Some(n)
    case LimitComputed(_, shown) => shown
  }

  datatype SetOp = Union | Except | Intersect

  /** `rest` is every clause that reshapes whole results (GROUP BY, ORDER BY, DISTINCT, ...). */
  datatype Query =
    | Select(ctes: Ctes, from: Source, filter: Expr, columns: Columns, rest: string, limit: Limit, offset: nat)
    | SetOperation(ctes: Ctes, op: SetOp, left: Query, right: Query, rest: string, limit: Limit, offset: nat)

  /** WITH bindings; each body sees the bindings before it. */
  datatype Ctes = NoCtes | With(before: Ctes, name: string, body: Query)

  datatype Source =
    | NoSource
    | Table(catalog: string, schema: string, name: string)
    | Subquery(q: Query)
    | Join(left: Source, right: Source, on: Expr)
    | TableFunction(fn: Function, args: Exprs)

  datatype Expr =
    | Literal(text: string)
    | Column(name: string)
    | Call(fn: Function, args: Exprs)
    | InQuery(e: Expr, q: Query)
    | Exists(q: Query)
    | Scalar(q: Query)

  datatype Exprs = NoExprs | Exprs(head: Expr, tail: Exprs)

  datatype Columns = NoColumns | As(before: Columns, e: Expr, alias: string)

  /** A function node: one the parser knows, or a name it passes through. */
  datatype Function = Known(sqlName: string) | Anonymous(name: string)

  datatype Statement = Read(q: Query) | OtherStatement(kind: string)

  /** What parsing gave: nothing to parse, an error, or the statements (empty ones are `None`). */
  datatype Parsed = Blank | ParseError | Statements(list: seq<Option<Statement>>)

  datatype Rejection = NoSql | Unparsable | NotOneStatement(count: nat) | NotARead | ForbiddenConstruct | ForbiddenRelation

  // ------------------------------------------------------------ the guard

  const FORBIDDEN_FUNCTIONS := {"IDENTIFIER", "TABLE"}
  const INFORMATION_SCHEMA := "INFORMATION_SCHEMA"
  const DATABASE := "FRAUD_DETECTION"

  /** The allowlist as (SCHEMA, TABLE) pairs, and the row cap. */
  datatype Validator = Validator(allowed: set<(string, string)>, maxRows: nat)

  /** The name the walk compares: a known function shows its first argument's text when that is a literal. */
  function CheckedName(fn: Function, args: Exprs): string {
    match fn
    case Anonymous(name) => Upper(name)
    case Known(sqlName) =>
      if args.Exprs? && args.head.Literal? && args.head.text != "" then Upper(args.head.text) else Upper(sqlName)
  }

  predicate FunctionOk(fn: Function, args: Exprs) { CheckedName(fn, args) !in FORBIDDEN_FUNCTIONS }

  predicate FunctionsInQuery(q: Query) {
    FunctionsInCtes(q.ctes) &&
    match q
    case Select(_, from, filter, columns, _, _, _) =>
      FunctionsInSource(from) && FunctionsInExpr(filter) && FunctionsInColumns(columns)
    case SetOperation(_, _, left, right, _, _, _) => FunctionsInQuery(left) && FunctionsInQuery(right)
  }

  predicate FunctionsInCtes(c: Ctes) {
    c.With? ==> FunctionsInCtes(c.before) && FunctionsInQuery(c.body)
  }

  predicate FunctionsInSource(s: Source) {
    match s
    case NoSource => true
    case Table(_, _, _) => true
    case Subquery(q) => FunctionsInQuery(q)
    case Join(l, r, on) => FunctionsInSource(l) && FunctionsInSource(r) && FunctionsInExpr(on)
    case TableFunction(fn, args) => FunctionOk(fn, args) && FunctionsInExprs(args)
  }

  predicate FunctionsInExpr(e: Expr) {
    match e
    case Literal(_) => true
    case Column(_) => true
    case Call(fn, args) => FunctionOk(fn, args) && FunctionsInExprs(args)
    case InQuery(e, q) => FunctionsInExpr(e) && FunctionsInQuery(q)
    case Exists(q) => FunctionsInQuery(q)
    case Scalar(q) => FunctionsInQuery(q)
  }

  predicate FunctionsInExprs(es: Exprs) { es.Exprs? ==> FunctionsInExpr(es.head) && FunctionsInExprs(es.tail) }

  predicate FunctionsInColumns(c: Columns) { c.As? ==> FunctionsInColumns(c.before) && FunctionsInExpr(c.e) }

  /** `{c.alias.upper() for c in stmt.find_all(exp.CTE) if c.alias}`: every alias, wherever it is bound. */
  function CtesInQuery(q: Query): set<string> {
    CtesInCtes(q.ctes) +
    match q
    case Select(_, from, filter, columns, _, _, _) => CtesInSource(from) + CtesInExpr(filter) + CtesInColumns(columns)
    case SetOperation(_, _, left, right, _, _, _) => CtesInQuery(left) + CtesInQuery(right)
  }

  function CtesInCtes(c: Ctes): set<string> {
    if c.NoCtes? then {}
    else CtesInCtes(c.before) + CtesInQuery(c.body) + (if c.name == "" then {} else {Upper(c.name)})
  }

  function CtesInSource(s: Source): set<string> {
    match s
    case NoSource => {}
    case Table(_, _, _) => {}
    case Subquery(q) => CtesInQuery(q)
    case Join(l, r, on) => CtesInSource(l) + CtesInSource(r) + CtesInExpr(on)
    case TableFunction(_, args) => CtesInExprs(args)
  }

  function CtesInExpr(e: Expr): set<string> {
    match e
    case Literal(_) => {}
    case Column(_) => {}
    case Call(_, args) => CtesInExprs(args)
    case InQuery(e, q) => CtesInExpr(e) + CtesInQuery(q)
    case Exists(q) => CtesInQuery(q)
    case Scalar(q) => CtesInQuery(q)
  }

  function CtesInExprs(es: Exprs): set<string> {
    if es.NoExprs? then {} else CtesInExpr(es.head) + CtesInExprs(es.tail)
  }

  function CtesInColumns(c: Columns): set<string> {
    if c.NoColumns? then {} else CtesInColumns(c.before) + CtesInExpr(c.e)
  }

  /** `_check_table`. */
  predicate TableOk(v: Validator, cteNames: set<string>, catalog: string, schema: string, name: string) {
    var n, s, c := Upper(name), Upper(schema), Upper(catalog);
    n != "" && n[0] != '@' &&
    ((s == "" && n in cteNames) ||
     (s != "" && s != INFORMATION_SCHEMA && (c == "" || c == DATABASE) && (s, n) in v.allowed))
  }

  /** A property of table references, checked at every node of the tree that is one. A table function
      is a table node with an empty name, which `_check_table` refuses. */
  predicate TablesInQuery(q: Query, v: Validator, names: set<string>) {
    TablesInCtes(q.ctes, v, names) &&
    match q
    case Select(_, from, filter, columns, _, _, _) =>
      TablesInSource(from, v, names) && TablesInExpr(filter, v, names) && TablesInColumns(columns, v, names)
    case SetOperation(_, _, left, right, _, _, _) => TablesInQuery(left, v, names) && TablesInQuery(right, v, names)
  }

  predicate TablesInCtes(c: Ctes, v: Validator, names: set<string>) {
    c.With? ==> TablesInCtes(c.before, v, names) && TablesInQuery(c.body, v, names)
  }

  predicate TablesInSource(s: Source, v: Validator, names: set<string>) {
    match s
    case NoSource => true
    case Table(catalog, schema, name) => TableOk(v, names, catalog, schema, name)
    case Subquery(q) => TablesInQuery(q, v, names)
    case Join(l, r, on) => TablesInSource(l, v, names) && TablesInSource(r, v, names) && TablesInExpr(on, v, names)
    case TableFunction(_, args) => false
  }

  predicate TablesInExpr(e: Expr, v: Validator, names: set<string>) {
    match e
    case Literal(_) => true
    case Column(_) => true
    case Call(_, args) => TablesInExprs(args, v, names)
    case InQuery(e, q) => TablesInExpr(e, v, names) && TablesInQuery(q, v, names)
    case Exists(q) => TablesInQuery(q, v, names)
    case Scalar(q) => TablesInQuery(q, v, names)
  }

  predicate TablesInExprs(es: Exprs, v: Validator, names: set<string>) {
    es.Exprs? ==> TablesInExpr(es.head, v, names) && TablesInExprs(es.tail, v, names)
  }

  predicate TablesInColumns(c: Columns, v: Validator, names: set<string>) {
    c.As? ==> TablesInColumns(c.before, v, names) && TablesInExpr(c.e, v, names)
  }

  predicate Accepted(v: Validator, q: Query) { FunctionsInQuery(q) && TablesInQuery(q, v, CtesInQuery(q)) }

  predicate ShowsWithin(v: Validator, limit: Limit) { Shown(limit).Some? && Shown(limit).value <= v.maxRows }

  /** `_apply_row_cap`: a limit that shows a number within the cap stays; anything else becomes the cap. */
  function Cap(v: Validator, q: Query): Query {
    if ShowsWithin(v, q.limit) then q else q.(limit := LimitLiteral(v.maxRows))
  }

  function Present(list: seq<Option<Statement>>): seq<Statement> {
    if list == [] then []
    else (if list[0].Some? then [list[0].value] else []) + Present(list[1..])
  }

  /** `validate`. */
  function Validate(v: Validator, p: Parsed): Result<Query, Rejection> {
    match p
    case Blank => Err(NoSql)
    case ParseError => Err(Unparsable)
    case Statements(list) =>
      var statements := Present(list);
      if |statements| != 1 then Err(NotOneStatement(|statements|))
      else if !statements[0].Read? then Err(NotARead)
      else
        var q := statements[0].q;
        if !FunctionsInQuery(q) then Err(ForbiddenConstruct)
        else if !TablesInQuery(q, v, CtesInQuery(q)) then Err(ForbiddenRelation)
        else Ok(Cap(v, q))
  }
}
