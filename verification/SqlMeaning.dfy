/** A denotational semantics of query trees, and the two theorems about the guard: an accepted query
    depends on the allowlisted relations only, and the row cap keeps the query's meaning. */
module SqlMeaning {
  import opened Wrappers
  import opened Text
  import opened SqlGuard

  type Val = string
  type Row = map<string, Val>
  type Rel = seq<Row>

  /** A relation's full name, in upper case. */
  datatype Key = Key(catalog: string, schema: string, name: string)

  type Database = Key -> Rel

  /** The meaning of everything the guard does not look into. Any function may read the database. */
  datatype Interp = Interp(
    call: (Function, seq<Val>, Database) -> Val,
    truth: Val -> bool,
    member: (Val, Rel) -> Val,
    exists_: Rel -> Val,
    single: Rel -> Val,
    setOp: (SetOp, Rel, Rel) -> Rel,
    clauses: (string, Rel) -> Rel,
    tableFunction: (Function, seq<Val>, Database) -> Rel,
    defaultSchema: string)

  type Env = map<string, Rel>

  function FilterRows(rows: Rel, p: Row -> bool): Rel {
    if rows == [] then [] else (if p(rows[0]) then [rows[0]] else []) + FilterRows(rows[1..], p)
  }

  function MapRows(rows: Rel, f: Row -> Row): Rel {
    if rows == [] then [] else [f(rows[0])] + MapRows(rows[1..], f)
  }

  function Pairs(l: Rel, r: Rel): Rel {
    if l == [] then [] else MapRows(r, (y: Row) => l[0] + y) + Pairs(l[1..], r)
  }

  function Skip(rows: Rel, n: nat): Rel { if n <= |rows| then rows[n..] else [] }

  function First(rows: Rel, n: nat): Rel { if n <= |rows| then rows[..n] else rows }

  function Limited(rows: Rel, limit: Limit): Rel { if limit.NoLimit? then rows else First(rows, limit.n) }

  /** The relation a table reference names: a CTE in scope for a bare name, else a stored relation. */
  function Resolve(i: Interp, catalog: string, schema: string, name: string): Key {
    Key(if catalog == "" then DATABASE else Upper(catalog), if schema == "" then i.defaultSchema else Upper(schema), Upper(name))
  }

  predicate Bare(catalog: string, schema: string) { catalog == "" && schema == "" }

  function Lookup(i: Interp, db: Database, env: Env, catalog: string, schema: string, name: string): Rel {
    if Bare(catalog, schema) && Upper(name) in env then env[Upper(name)] else db(Resolve(i, catalog, schema, name))
  }

  /** All rows of a query before OFFSET and LIMIT. */
  function AllRows(i: Interp, db: Database, env: Env, outer: Row, q: Query): Rel
    decreases q, 0
  {
    var env := BindCtes(i, db, env, outer, q.ctes);
    match q
    case Select(_, from, filter, columns, rest, _, _) =>
      var rows := EvalSource(i, db, env, outer, from);
      var kept := FilterRows(rows, Passes(i, db, env, outer, filter));
      i.clauses(rest, MapRows(kept, Projects(i, db, env, outer, columns)))
    case SetOperation(_, op, left, right, rest, _, _) =>
      i.clauses(rest, i.setOp(op, Eval(i, db, env, outer, left), Eval(i, db, env, outer, right)))
  }

  function Eval(i: Interp, db: Database, env: Env, outer: Row, q: Query): Rel
    decreases q, 1
  {
    Limited(Skip(AllRows(i, db, env, outer, q), q.offset), q.limit)
  }

  function BindCtes(i: Interp, db: Database, env: Env, outer: Row, c: Ctes): Env
    decreases c, 0
  {
    if c.NoCtes? then env
    else
      var before := BindCtes(i, db, env, outer, c.before);
      before[Upper(c.name) := Eval(i, db, before, outer, c.body)]
  }

  function EvalSource(i: Interp, db: Database, env: Env, outer: Row, s: Source): Rel
    decreases s, 0
  {
    match s
    case NoSource => [map[]]
    case Table(catalog, schema, name) => Lookup(i, db, env, catalog, schema, name)
    case Subquery(q) => Eval(i, db, env, outer, q)
    case Join(l, r, on) =>
      FilterRows(Pairs(EvalSource(i, db, env, outer, l), EvalSource(i, db, env, outer, r)), Passes(i, db, env, outer, on))
    case TableFunction(fn, args) => i.tableFunction(fn, EvalExprs(i, db, env, outer, args), db)
  }

  function Passes(i: Interp, db: Database, env: Env, outer: Row, e: Expr): Row -> bool
    decreases e, 1
  {
    (r: Row) => i.truth(EvalExpr(i, db, env, outer + r, e))
  }

  function Projects(i: Interp, db: Database, env: Env, outer: Row, c: Columns): Row -> Row
    decreases c, 1
  {
    (r: Row) => EvalColumns(i, db, env, outer + r, c)
  }

  function EvalExpr(i: Interp, db: Database, env: Env, row: Row, e: Expr): Val
    decreases e, 0
  {
    match e
    case Literal(t) => t
    case Column(c) => if Upper(c) in row then row[Upper(c)] else ""
    case Call(fn, args) => i.call(fn, EvalExprs(i, db, env, row, args), db)
    case InQuery(e, q) => i.member(EvalExpr(i, db, env, row, e), Eval(i, db, env, row, q))
    case Exists(q) => i.exists_(Eval(i, db, env, row, q))
    case Scalar(q) => i.single(Eval(i, db, env, row, q))
  }

  function EvalExprs(i: Interp, db: Database, env: Env, row: Row, es: Exprs): seq<Val>
    decreases es, 0
  {
    if es.NoExprs? then [] else [EvalExpr(i, db, env, row, es.head)] + EvalExprs(i, db, env, row, es.tail)
  }

  function EvalColumns(i: Interp, db: Database, env: Env, row: Row, c: Columns): Row
    decreases c, 0
  {
    if c.NoColumns? then map[] else EvalColumns(i, db, env, row, c.before)[Upper(c.alias) := EvalExpr(i, db, env, row, c.e)]
  }

  // ------------------------------------------------------------ what a query can read

  function AllowedKeys(v: Validator): set<Key> {
    set a | a in v.allowed :: Key(DATABASE, a.0, a.1)
  }

  /** The reference names a CTE in scope, or an allowlisted relation. */
  predicate Reaches(i: Interp, v: Validator, scope: set<string>, catalog: string, schema: string, name: string) {
    (Bare(catalog, schema) && Upper(name) in scope) || Resolve(i, catalog, schema, name) in AllowedKeys(v)
  }

  /** Every table reference of the query, wherever it stands, reaches only what it may; CTE scopes are
      followed exactly. With `all` false only references without a schema are constrained. */
  predicate ConfinedQuery(i: Interp, v: Validator, scope: set<string>, q: Query, all: bool)
    decreases q
  {
    var inner := scope + BoundBy(q.ctes);
    ConfinedCtes(i, v, scope, q.ctes, all) &&
    match q
    case Select(_, from, filter, columns, _, _, _) =>
      ConfinedSource(i, v, inner, from, all) && ConfinedExpr(i, v, inner, filter, all) && ConfinedColumns(i, v, inner, columns, all)
    case SetOperation(_, _, left, right, _, _, _) =>
      ConfinedQuery(i, v, inner, left, all) && ConfinedQuery(i, v, inner, right, all)
  }

  function BoundBy(c: Ctes): set<string> { if c.NoCtes? then {} else BoundBy(c.before) + {Upper(c.name)} }

  predicate ConfinedCtes(i: Interp, v: Validator, scope: set<string>, c: Ctes, all: bool)
    decreases c
  {
    c.With? ==> ConfinedCtes(i, v, scope, c.before, all) && ConfinedQuery(i, v, scope + BoundBy(c.before), c.body, all)
  }

  predicate ConfinedSource(i: Interp, v: Validator, scope: set<string>, s: Source, all: bool)
    decreases s
  {
    match s
    case NoSource => true
    case Table(catalog, schema, name) => (all || schema == "") ==> Reaches(i, v, scope, catalog, schema, name)
    case Subquery(q) => ConfinedQuery(i, v, scope, q, all)
    case Join(l, r, on) => ConfinedSource(i, v, scope, l, all) && ConfinedSource(i, v, scope, r, all) && ConfinedExpr(i, v, scope, on, all)
    case TableFunction(_, args) => !all && ConfinedExprs(i, v, scope, args, all)
  }

  predicate ConfinedExpr(i: Interp, v: Validator, scope: set<string>, e: Expr, all: bool)
    decreases e
  {
    match e
    case Literal(_) => true
    case Column(_) => true
    case Call(fn, args) => ConfinedExprs(i, v, scope, args, all)
    case InQuery(e, q) => ConfinedExpr(i, v, scope, e, all) && ConfinedQuery(i, v, scope, q, all)
    case Exists(q) => ConfinedQuery(i, v, scope, q, all)
    case Scalar(q) => ConfinedQuery(i, v, scope, q, all)
  }

  predicate ConfinedExprs(i: Interp, v: Validator, scope: set<string>, es: Exprs, all: bool)
    decreases es
  {
    es.Exprs? ==> ConfinedExpr(i, v, scope, es.head, all) && ConfinedExprs(i, v, scope, es.tail, all)
  }

  predicate ConfinedColumns(i: Interp, v: Validator, scope: set<string>, c: Columns, all: bool)
    decreases c
  {
    c.As? ==> ConfinedColumns(i, v, scope, c.before, all) && ConfinedExpr(i, v, scope, c.e, all)
  }

  // ------------------------------------------------------------ confinement implies noninterference

  ghost predicate AgreeOn(keys: set<Key>, a: Database, b: Database) { forall k | k in keys :: a(k) == b(k) }

  /** The functions the guard refuses by name. */
  predicate Forbidden(fn: Function) { fn.Anonymous? && Upper(fn.name) in FORBIDDEN_FUNCTIONS }

  /** No function but those cares which of the two databases it runs on. */
  ghost predicate Pure(i: Interp, a: Database, b: Database) {
    forall fn, vals :: !Forbidden(fn) ==> i.call(fn, vals, a) == i.call(fn, vals, b)
  }

  /** Two databases between which an accepted query must not be able to tell. */
  ghost predicate Alike(i: Interp, v: Validator, a: Database, b: Database) {
    AgreeOn(AllowedKeys(v), a, b) && Pure(i, a, b)
  }

  lemma {:induction false} FilterSame(rows: Rel, p: Row -> bool, q: Row -> bool)
    requires forall r | r in rows :: p(r) == q(r)
    ensures FilterRows(rows, p) == FilterRows(rows, q)
  {
    if rows != [] {
      assert rows[0] in rows && forall r | r in rows[1..] :: r in rows;
      FilterSame(rows[1..], p, q);
    }
  }

  lemma {:induction false} MapSame(rows: Rel, f: Row -> Row, g: Row -> Row)
    requires forall r | r in rows :: f(r) == g(r)
    ensures MapRows(rows, f) == MapRows(rows, g)
  {
    if rows != [] {
      assert rows[0] in rows && forall r | r in rows[1..] :: r in rows;
      MapSame(rows[1..], f, g);
    }
  }

  lemma {:induction false} BindScope(i: Interp, db: Database, env: Env, outer: Row, c: Ctes)
    ensures BindCtes(i, db, env, outer, c).Keys == env.Keys + BoundBy(c)
  {
    if c.With? {
      BindScope(i, db, env, outer, c.before);
    }
  }

  lemma {:induction false} SameQuery(i: Interp, v: Validator, a: Database, b: Database, env: Env, outer: Row, q: Query)
    requires Alike(i, v, a, b) && FunctionsInQuery(q) && ConfinedQuery(i, v, env.Keys, q, true)
    ensures Eval(i, a, env, outer, q) == Eval(i, b, env, outer, q)
    decreases q, 0
  {
    SameCtes(i, v, a, b, env, outer, q.ctes);
    BindScope(i, a, env, outer, q.ctes);
    var inner := BindCtes(i, a, env, outer, q.ctes);
    match q
    case Select(_, from, filter, columns, _, _, _) =>
      SameSource(i, v, a, b, inner, outer, from);
      SamePasses(i, v, a, b, inner, outer, filter, EvalSource(i, a, inner, outer, from));
      SameProjects(i, v, a, b, inner, outer, columns,
                   FilterRows(EvalSource(i, a, inner, outer, from), Passes(i, a, inner, outer, filter)));
    case SetOperation(_, _, left, right, _, _, _) =>
      SameQuery(i, v, a, b, inner, outer, left);
      SameQuery(i, v, a, b, inner, outer, right);
  }

  lemma {:induction false} SamePasses(i: Interp, v: Validator, a: Database, b: Database, env: Env, outer: Row, e: Expr, rows: Rel)
    requires Alike(i, v, a, b) && FunctionsInExpr(e) && ConfinedExpr(i, v, env.Keys, e, true)
    ensures FilterRows(rows, Passes(i, a, env, outer, e)) == FilterRows(rows, Passes(i, b, env, outer, e))
    decreases e, 1
  {
    forall r | r in rows ensures Passes(i, a, env, outer, e)(r) == Passes(i, b, env, outer, e)(r) {
      SameExpr(i, v, a, b, env, outer + r, e);
    }
    FilterSame(rows, Passes(i, a, env, outer, e), Passes(i, b, env, outer, e));
  }

  lemma {:induction false} SameProjects(i: Interp, v: Validator, a: Database, b: Database, env: Env, outer: Row, c: Columns, rows: Rel)
    requires Alike(i, v, a, b) && FunctionsInColumns(c) && ConfinedColumns(i, v, env.Keys, c, true)
    ensures MapRows(rows, Projects(i, a, env, outer, c)) == MapRows(rows, Projects(i, b, env, outer, c))
    decreases c, 1
  {
    forall r | r in rows ensures Projects(i, a, env, outer, c)(r) == Projects(i, b, env, outer, c)(r) {
      SameColumns(i, v, a, b, env, outer + r, c);
    }
    MapSame(rows, Projects(i, a, env, outer, c), Projects(i, b, env, outer, c));
  }

  lemma {:induction false} SameCtes(i: Interp, v: Validator, a: Database, b: Database, env: Env, outer: Row, c: Ctes)
    requires Alike(i, v, a, b) && FunctionsInCtes(c) && ConfinedCtes(i, v, env.Keys, c, true)
    ensures BindCtes(i, a, env, outer, c) == BindCtes(i, b, env, outer, c)
    decreases c, 0
  {
    if c.With? {
      SameCtes(i, v, a, b, env, outer, c.before);
      BindScope(i, a, env, outer, c.before);
      SameQuery(i, v, a, b, BindCtes(i, a, env, outer, c.before), outer, c.body);
    }
  }

  lemma {:induction false} SameSource(i: Interp, v: Validator, a: Database, b: Database, env: Env, outer: Row, s: Source)
    requires Alike(i, v, a, b) && FunctionsInSource(s) && ConfinedSource(i, v, env.Keys, s, true)
    ensures EvalSource(i, a, env, outer, s) == EvalSource(i, b, env, outer, s)
    decreases s, 0
  {
    match s
    case NoSource =>
    case Table(_, _, _) =>
    case Subquery(q) => SameQuery(i, v, a, b, env, outer, q);
    case Join(l, r, on) =>
      SameSource(i, v, a, b, env, outer, l);
      SameSource(i, v, a, b, env, outer, r);
      SamePasses(i, v, a, b, env, outer, on, Pairs(EvalSource(i, a, env, outer, l), EvalSource(i, a, env, outer, r)));
    case TableFunction(_, _) =>
  }

  lemma {:induction false} SameExpr(i: Interp, v: Validator, a: Database, b: Database, env: Env, row: Row, e: Expr)
    requires Alike(i, v, a, b) && FunctionsInExpr(e) && ConfinedExpr(i, v, env.Keys, e, true)
    ensures EvalExpr(i, a, env, row, e) == EvalExpr(i, b, env, row, e)
    decreases e, 0
  {
    match e
    case Literal(_) =>
    case Column(_) =>
    case Call(fn, args) => SameExprs(i, v, a, b, env, row, args);
    case InQuery(x, q) =>
      SameExpr(i, v, a, b, env, row, x);
      SameQuery(i, v, a, b, env, row, q);
    case Exists(q) => SameQuery(i, v, a, b, env, row, q);
    case Scalar(q) => SameQuery(i, v, a, b, env, row, q);
  }

  lemma {:induction false} SameExprs(i: Interp, v: Validator, a: Database, b: Database, env: Env, row: Row, es: Exprs)
    requires Alike(i, v, a, b) && FunctionsInExprs(es) && ConfinedExprs(i, v, env.Keys, es, true)
    ensures EvalExprs(i, a, env, row, es) == EvalExprs(i, b, env, row, es)
    decreases es, 0
  {
    if es.Exprs? {
      SameExpr(i, v, a, b, env, row, es.head);
      SameExprs(i, v, a, b, env, row, es.tail);
    }
  }

  lemma {:induction false} SameColumns(i: Interp, v: Validator, a: Database, b: Database, env: Env, row: Row, c: Columns)
    requires Alike(i, v, a, b) && FunctionsInColumns(c) && ConfinedColumns(i, v, env.Keys, c, true)
    ensures EvalColumns(i, a, env, row, c) == EvalColumns(i, b, env, row, c)
    decreases c, 0
  {
    if c.As? {
      SameColumns(i, v, a, b, env, row, c.before);
      SameExpr(i, v, a, b, env, row, c.e);
    }
  }

  // ------------------------------------------------------------ acceptance and confinement

  /** The walk's table check settles every reference that names a schema. */
  lemma TableConfined(i: Interp, v: Validator, names: set<string>, catalog: string, schema: string, name: string)
    requires TableOk(v, names, catalog, schema, name) && schema != ""
    ensures Resolve(i, catalog, schema, name) in AllowedKeys(v)
  {
    assert |Upper(schema)| == |schema| && |Upper(catalog)| == |catalog|;
    assert (Upper(schema), Upper(name)) in v.allowed;
  }

  lemma {:induction false} ConfinedIffQuery(i: Interp, v: Validator, names: set<string>, scope: set<string>, q: Query)
    requires TablesInQuery(q, v, names)
    ensures ConfinedQuery(i, v, scope, q, true) <==> ConfinedQuery(i, v, scope, q, false)
    decreases q
  {
    var inner := scope + BoundBy(q.ctes);
    ConfinedIffCtes(i, v, names, scope, q.ctes);
    match q
    case Select(_, from, filter, columns, _, _, _) =>
      ConfinedIffSource(i, v, names, inner, from);
      ConfinedIffExpr(i, v, names, inner, filter);
      ConfinedIffColumns(i, v, names, inner, columns);
    case SetOperation(_, _, left, right, _, _, _) =>
      ConfinedIffQuery(i, v, names, inner, left);
      ConfinedIffQuery(i, v, names, inner, right);
  }

  lemma {:induction false} ConfinedIffCtes(i: Interp, v: Validator, names: set<string>, scope: set<string>, c: Ctes)
    requires TablesInCtes(c, v, names)
    ensures ConfinedCtes(i, v, scope, c, true) <==> ConfinedCtes(i, v, scope, c, false)
    decreases c
  {
    if c.With? {
      ConfinedIffCtes(i, v, names, scope, c.before);
      ConfinedIffQuery(i, v, names, scope + BoundBy(c.before), c.body);
    }
  }

  lemma {:induction false} ConfinedIffSource(i: Interp, v: Validator, names: set<string>, scope: set<string>, s: Source)
    requires TablesInSource(s, v, names)
    ensures ConfinedSource(i, v, scope, s, true) <==> ConfinedSource(i, v, scope, s, false)
    decreases s
  {
    match s
    case NoSource =>
    case Table(catalog, schema, name) => if schema != "" { TableConfined(i, v, names, catalog, schema, name); }
    case Subquery(q) => ConfinedIffQuery(i, v, names, scope, q);
    case Join(l, r, on) =>
      ConfinedIffSource(i, v, names, scope, l);
      ConfinedIffSource(i, v, names, scope, r);
      ConfinedIffExpr(i, v, names, scope, on);
  }

  lemma {:induction false} ConfinedIffExpr(i: Interp, v: Validator, names: set<string>, scope: set<string>, e: Expr)
    requires TablesInExpr(e, v, names)
    ensures ConfinedExpr(i, v, scope, e, true) <==> ConfinedExpr(i, v, scope, e, false)
    decreases e
  {
    match e
    case Literal(_) =>
    case Column(_) =>
    case Call(fn, args) => ConfinedIffExprs(i, v, names, scope, args);
    case InQuery(x, q) =>
      ConfinedIffExpr(i, v, names, scope, x);
      ConfinedIffQuery(i, v, names, scope, q);
    case Exists(q) => ConfinedIffQuery(i, v, names, scope, q);
    case Scalar(q) => ConfinedIffQuery(i, v, names, scope, q);
  }

  lemma {:induction false} ConfinedIffExprs(i: Interp, v: Validator, names: set<string>, scope: set<string>, es: Exprs)
    requires TablesInExprs(es, v, names)
    ensures ConfinedExprs(i, v, scope, es, true) <==> ConfinedExprs(i, v, scope, es, false)
    decreases es
  {
    if es.Exprs? {
      ConfinedIffExpr(i, v, names, scope, es.head);
      ConfinedIffExprs(i, v, names, scope, es.tail);
    }
  }

  lemma {:induction false} ConfinedIffColumns(i: Interp, v: Validator, names: set<string>, scope: set<string>, c: Columns)
    requires TablesInColumns(c, v, names)
    ensures ConfinedColumns(i, v, scope, c, true) <==> ConfinedColumns(i, v, scope, c, false)
    decreases c
  {
    if c.As? {
      ConfinedIffColumns(i, v, names, scope, c.before);
      ConfinedIffExpr(i, v, names, scope, c.e);
    }
  }

  /** What acceptance buys: an accepted query reads allowlisted relations only, exactly when each of its
      references without a schema names a CTE in scope (or happens to name an allowlisted relation). */
  lemma AcceptedReads(i: Interp, v: Validator, q: Query)
    requires Accepted(v, q)
    ensures ConfinedQuery(i, v, {}, q, true) <==> ConfinedQuery(i, v, {}, q, false)
  {
    ConfinedIffQuery(i, v, CtesInQuery(q), {}, q);
  }

  /** Noninterference of accepted SQL, for any nesting: when references without a schema denote only CTEs and
      functions do not read the database, databases that agree on the allowlisted relations give the same result. */
  lemma AcceptedIsNoninterfering(i: Interp, v: Validator, q: Query, a: Database, b: Database)
    requires Accepted(v, q) && ConfinedQuery(i, v, {}, q, false) && Alike(i, v, a, b)
    ensures Eval(i, a, map[], map[], q) == Eval(i, b, map[], map[], q)
  {
    AcceptedReads(i, v, q);
    var env: Env := map[];
    assert env.Keys == {};
    SameQuery(i, v, a, b, env, map[], q);
  }

  // ------------------------------------------------------------ the hypotheses are needed

  const TRUE := Literal("TRUE")

  /** What any SQL engine does: TRUE holds, no clauses change nothing, and a row is in a UNION only if it is in
      one of its sides, and always if it is. Duplicates and order are left open. */
  ghost predicate Ordinary(i: Interp) {
    i.truth("TRUE") && (forall rows :: i.clauses("", rows) == rows) &&
    forall l, r, row :: row in i.setOp(Union, l, r) <==> row in l || row in r
  }

  lemma {:induction false} KeepsAll(rows: Rel, p: Row -> bool)
    requires forall r :: p(r)
    ensures FilterRows(rows, p) == rows
  {
    if rows != [] { KeepsAll(rows[1..], p); }
  }

  lemma {:induction false} MapLength(rows: Rel, f: Row -> Row)
    ensures |MapRows(rows, f)| == |rows|
  {
    if rows != [] { MapLength(rows[1..], f); }
  }

  /** `WITH ... SELECT e AS v FROM source LIMIT limit`. */
  function Project(ctes: Ctes, source: Source, e: Expr, limit: Limit): Query {
    Select(ctes, source, TRUE, As(NoColumns, e, "v"), "", limit, 0)
  }

  /** Without a filter or clauses, the rows are those of the source, projected. */
  lemma ProjectRows(i: Interp, db: Database, env: Env, ctes: Ctes, source: Source, e: Expr, limit: Limit)
    requires Ordinary(i)
    ensures var inner := BindCtes(i, db, env, map[], ctes);
            AllRows(i, db, env, map[], Project(ctes, source, e, limit)) ==
            MapRows(EvalSource(i, db, inner, map[], source), Projects(i, db, inner, map[], As(NoColumns, e, "v")))
  {
    var inner := BindCtes(i, db, env, map[], ctes);
    var rows := EvalSource(i, db, inner, map[], source);
    forall r ensures Passes(i, db, inner, map[], TRUE)(r) {
      assert EvalExpr(i, db, inner, map[] + r, TRUE) == "TRUE";
    }
    KeepsAll(rows, Passes(i, db, inner, map[], TRUE));
  }

  /** A function that reads the database and is not one of the two refused names passes the guard: then an
      accepted query that names no relation at all depends on everything the function reads. */
  lemma ImpureFunctionIsAccepted(i: Interp, v: Validator, name: string, a: Database, b: Database)
    requires Ordinary(i) && !Forbidden(Anonymous(name))
    requires i.call(Anonymous(name), [], a) != i.call(Anonymous(name), [], b)
    ensures var q := Project(NoCtes, NoSource, Call(Anonymous(name), NoExprs), NoLimit);
            Accepted(v, q) && ConfinedQuery(i, v, {}, q, true) && Eval(i, a, map[], map[], q) != Eval(i, b, map[], map[], q)
  {
    var e := Call(Anonymous(name), NoExprs);
    var q := Project(NoCtes, NoSource, e, NoLimit);
    assert FunctionsInExpr(e) && TablesInExpr(e, v, CtesInQuery(q)) && ConfinedExpr(i, v, {}, e, true);
    NoTableAccepted(i, v, CtesInQuery(q), e);
    OneRowResult(i, a, e);
    OneRowResult(i, b, e);
  }

  /** A query without a source is as good as its one expression. */
  lemma NoTableAccepted(i: Interp, v: Validator, names: set<string>, e: Expr)
    requires FunctionsInExpr(e) && TablesInExpr(e, v, names) && ConfinedExpr(i, v, {}, e, true)
    ensures var q := Project(NoCtes, NoSource, e, NoLimit);
            FunctionsInQuery(q) && TablesInQuery(q, v, names) && ConfinedQuery(i, v, {}, q, true)
  {
    var columns := As(NoColumns, e, "v");
    assert FunctionsInColumns(columns) && TablesInColumns(columns, v, names) && ConfinedColumns(i, v, {}, columns, true);
    assert FunctionsInExpr(TRUE) && TablesInExpr(TRUE, v, names) && ConfinedExpr(i, v, {}, TRUE, true);
    assert BoundBy(NoCtes) == {} && {} + BoundBy(NoCtes) == {};
  }

  lemma OneRowResult(i: Interp, db: Database, e: Expr)
    requires Ordinary(i)
    ensures |Eval(i, db, map[], map[], Project(NoCtes, NoSource, e, NoLimit))| == 1
    ensures var rows := Eval(i, db, map[], map[], Project(NoCtes, NoSource, e, NoLimit));
            "V" in rows[0] && rows[0]["V"] == EvalExpr(i, db, map[], map[], e)
  {
    ProjectRows(i, db, map[], NoCtes, NoSource, e, NoLimit);
    assert Upper("v") == "V";
    var empty: Row := map[];
    assert empty + empty == empty;
    assert [empty][1..] == [];
  }

  // ------------------------------------------------------------ an alias out of scope

  const INNER := Project(NoCtes, NoSource, Literal("inner"), NoLimit)

  function Pick(ctes: Ctes): Query { Project(ctes, Table("", "", "x"), Column("v"), NoLimit) }

  /** `SELECT v FROM x UNION (WITH x AS (SELECT 'inner' AS v) SELECT v FROM x)`: the alias is bound in one
      branch only. */
  const ESCAPED := SetOperation(NoCtes, Union, Pick(NoCtes), Pick(With(NoCtes, "x", INNER)), "", NoLimit, 0)

  lemma AliasIsCollected()
    ensures "X" in CtesInQuery(ESCAPED) && Upper("x") == "X"
  {
    assert Upper("x") == "X";
    var inner := With(NoCtes, "x", INNER);
    assert "X" in CtesInCtes(inner);
    assert "X" in CtesInQuery(Pick(inner));
  }

  lemma PickAccepted(v: Validator, ctes: Ctes, names: set<string>)
    requires "X" in names && TablesInCtes(ctes, v, names) && FunctionsInCtes(ctes)
    ensures FunctionsInQuery(Pick(ctes)) && TablesInQuery(Pick(ctes), v, names)
  {
    assert Upper("x") == "X" && Upper("") == "";
  }

  lemma InnerAccepted(v: Validator, names: set<string>)
    ensures TablesInQuery(INNER, v, names) && FunctionsInQuery(INNER)
  {
    var columns := As(NoColumns, Literal("inner"), "v");
    assert FunctionsInColumns(columns) && TablesInColumns(columns, v, names);
  }

  lemma EscapedIsAccepted(v: Validator)
    ensures Accepted(v, ESCAPED)
  {
    AliasIsCollected();
    var names := CtesInQuery(ESCAPED);
    InnerAccepted(v, names);
    PickAccepted(v, NoCtes, names);
    PickAccepted(v, With(NoCtes, "x", INNER), names);
  }

  /** An alias bound in one branch lets the same bare name through in another, where it is a stored relation:
      the query is accepted, yet under every ordinary interpretation its result shows a value that only a
      relation outside the allowlist holds. */
  lemma AliasOutOfScopeIsAccepted(i: Interp, v: Validator) returns (a: Database, b: Database)
    requires Ordinary(i) && (i.defaultSchema, "X") !in v.allowed
    ensures Accepted(v, ESCAPED) && AgreeOn(AllowedKeys(v), a, b)
    ensures map["V" := "secret"] in Eval(i, b, map[], map[], ESCAPED)
    ensures map["V" := "secret"] !in Eval(i, a, map[], map[], ESCAPED)
  {
    EscapedIsAccepted(v);
    var key := Key(DATABASE, i.defaultSchema, "X");
    a := (k: Key) => [];
    b := (k: Key) => if k == key then [map["V" := "secret"]] else [];
    assert map["V" := "secret"]["V"] != map["V" := "inner"]["V"];
    EscapedReads(i, a, map["V" := "secret"]);
    EscapedReads(i, b, map["V" := "secret"]);
    LeftBranch(i, a);
    LeftBranch(i, b);
    SecretIsPicked(i, b);
  }

  /** A row of the result other than the CTE's own comes from the branch that reads the stored relation. */
  lemma EscapedReads(i: Interp, db: Database, row: Row)
    requires Ordinary(i) && row != map["V" := "inner"]
    ensures row in Eval(i, db, map[], map[], ESCAPED) <==> row in Eval(i, db, map[], map[], Pick(NoCtes))
  {
    RightBranch(i, db, row);
    assert BindCtes(i, db, map[], map[], NoCtes) == map[];
  }

  lemma RightBranch(i: Interp, db: Database, row: Row)
    requires Ordinary(i) && row != map["V" := "inner"]
    ensures row !in Eval(i, db, map[], map[], Pick(With(NoCtes, "x", INNER)))
  {
    assert Upper("x") == "X" && Upper("v") == "V";
    var ctes := With(NoCtes, "x", INNER);
    OneRowResult(i, db, Literal("inner"));
    var inner := BindCtes(i, db, map[], map[], ctes);
    var rows := Eval(i, db, map[], map[], INNER);
    assert inner["X"] == rows;
    ProjectRows(i, db, map[], ctes, Table("", "", "x"), Column("v"), NoLimit);
    OneMapped(rows, Projects(i, db, inner, map[], As(NoColumns, Column("v"), "v")));
    assert map[] + rows[0] == rows[0];
  }

  lemma OneMapped(rows: Rel, f: Row -> Row)
    requires |rows| == 1
    ensures MapRows(rows, f) == [f(rows[0])]
  {
    assert rows[1..] == [];
  }

  lemma LeftBranch(i: Interp, db: Database)
    requires Ordinary(i)
    ensures Eval(i, db, map[], map[], Pick(NoCtes)) ==
            MapRows(db(Key(DATABASE, i.defaultSchema, "X")), Projects(i, db, map[], map[], As(NoColumns, Column("v"), "v")))
  {
    assert Upper("x") == "X";
    ProjectRows(i, db, map[], NoCtes, Table("", "", "x"), Column("v"), NoLimit);
  }

  lemma SecretIsPicked(i: Interp, db: Database)
    requires Ordinary(i) && db(Key(DATABASE, i.defaultSchema, "X")) == [map["V" := "secret"]]
    ensures Eval(i, db, map[], map[], Pick(NoCtes)) == [map["V" := "secret"]]
  {
    assert Upper("v") == "V";
    LeftBranch(i, db);
    var row: Row := map["V" := "secret"];
    OneMapped([row], Projects(i, db, map[], map[], As(NoColumns, Column("v"), "v")));
    assert map[] + row == row;
  }

  // ------------------------------------------------------------ the row cap

  /** The rows that OFFSET leaves, before LIMIT. */
  function Offered(i: Interp, db: Database, env: Env, outer: Row, q: Query): Rel {
    Skip(AllRows(i, db, env, outer, q), q.offset)
  }

  /** The rows of a query do not depend on its LIMIT. */
  lemma LimitLeavesRows(i: Interp, db: Database, env: Env, outer: Row, q: Query, limit: Limit)
    ensures Offered(i, db, env, outer, q.(limit := limit)) == Offered(i, db, env, outer, q)
  {
  }

  /** A limit that shows a number within the cap and denotes one beyond it. */
  predicate Escapes(v: Validator, limit: Limit) { ShowsWithin(v, limit) && limit.n > v.maxRows }

  /** A limit below the cap that shows no number within it. */
  predicate Raised(v: Validator, limit: Limit) {
    !limit.NoLimit? && !ShowsWithin(v, limit) && limit.n < v.maxRows
  }

  /** The returned statement has at most `maxRows` rows, unless and only unless its limit escapes the cap and
      there are more rows than that. */
  lemma CapBoundsExactly(i: Interp, v: Validator, db: Database, env: Env, outer: Row, q: Query)
    ensures |Eval(i, db, env, outer, Cap(v, q))| <= v.maxRows <==>
            !(Escapes(v, q.limit) && |Offered(i, db, env, outer, q)| > v.maxRows)
  {
    LimitLeavesRows(i, db, env, outer, q, LimitLiteral(v.maxRows));
  }

  /** In some ordinary engine, on some database, the query has more than `n` rows before its limit. */
  ghost predicate CanOffer(q: Query, n: nat) {
    exists i: Interp, db: Database :: Ordinary(i) && |Offered(i, db, map[], map[], q)| > n
  }

  predicate WithinCap(i: Interp, v: Validator, db: Database, q: Query) {
    |Eval(i, db, map[], map[], Cap(v, q))| <= v.maxRows
  }

  /** Over all ordinary engines and all databases, the bound that `validate` promises holds exactly when the limit
      does not escape the cap, or the query can never have more rows than that. */
  lemma CapBoundsAlways(v: Validator, q: Query)
    ensures (forall i: Interp, db: Database | Ordinary(i) :: WithinCap(i, v, db, q)) <==>
            !(Escapes(v, q.limit) && CanOffer(q, v.maxRows))
  {
    forall i: Interp, db: Database
      ensures WithinCap(i, v, db, q) <==> !(Escapes(v, q.limit) && |Offered(i, db, map[], map[], q)| > v.maxRows)
    {
      CapBoundsExactly(i, v, db, map[], map[], q);
    }
    if Escapes(v, q.limit) && CanOffer(q, v.maxRows) {
      var i: Interp, db: Database :| Ordinary(i) && |Offered(i, db, map[], map[], q)| > v.maxRows;
      assert !WithinCap(i, v, db, q);
    }
  }

  /** An ordinary engine. */
  function Plainest(): Interp {
    Interp((f: Function, vals: seq<Val>, db: Database) => "", (x: Val) => true, (x: Val, r: Rel) => "", (r: Rel) => "",
           (r: Rel) => "", (op: SetOp, l: Rel, r: Rel) => l + r, (t: string, r: Rel) => r,
           (f: Function, vals: seq<Val>, db: Database) => [], "")
  }

  /** A stored relation can offer any number of rows. */
  lemma TableOffersAny(catalog: string, schema: string, name: string, e: Expr, limit: Limit, n: nat)
    ensures CanOffer(Project(NoCtes, Table(catalog, schema, name), e, limit), n)
  {
    var i, rows := Plainest(), seq(n + 1, k => map[]);
    var db := (k: Key) => rows;
    ProjectRows(i, db, map[], NoCtes, Table(catalog, schema, name), e, limit);
    MapLength(rows, Projects(i, db, map[], map[], As(NoColumns, e, "v")));
    assert Ordinary(i);
    assert |Offered(i, db, map[], map[], Project(NoCtes, Table(catalog, schema, name), e, limit))| == n + 1;
  }

  /** A query without a source never offers more than one: no limit of its can escape a cap. */
  lemma NoSourceOffersOne(e: Expr, limit: Limit, n: nat)
    ensures CanOffer(Project(NoCtes, NoSource, e, limit), n) <==> n == 0
  {
    var q := Project(NoCtes, NoSource, e, limit);
    forall i: Interp, db: Database | Ordinary(i) ensures |Offered(i, db, map[], map[], q)| == 1 {
      ProjectRows(i, db, map[], NoCtes, NoSource, e, limit);
      MapLength([map[]], Projects(i, db, map[], map[], As(NoColumns, e, "v")));
    }
    assert Ordinary(Plainest());
    assert |Offered(Plainest(), (k: Key) => [], map[], map[], q)| == 1;
  }

  /** The row cap keeps the meaning: the returned statement gives the first `maxRows` rows of the original.
      It fails to exactly when the limit escapes the cap and there are more rows than the cap, or the limit is
      raised to the cap and would have cut rows. */
  lemma CapKeepsMeaning(i: Interp, v: Validator, db: Database, env: Env, outer: Row, q: Query)
    ensures Eval(i, db, env, outer, Cap(v, q)) == First(Eval(i, db, env, outer, q), v.maxRows) <==>
            !(Escapes(v, q.limit) && |Offered(i, db, env, outer, q)| > v.maxRows) &&
            !(Raised(v, q.limit) && |Offered(i, db, env, outer, q)| > q.limit.n)
  {
    LimitLeavesRows(i, db, env, outer, q, LimitLiteral(v.maxRows));
    CapRows(Offered(i, db, env, outer, q), q.limit, v.maxRows);
  }

  predicate FirstRowsKept(i: Interp, v: Validator, db: Database, q: Query) {
    Eval(i, db, map[], map[], Cap(v, q)) == First(Eval(i, db, map[], map[], q), v.maxRows)
  }

  /** Over all ordinary engines and all databases, it keeps the meaning exactly when no limit escapes, and none is
      raised, that the query can have enough rows to feel. */
  lemma CapKeepsMeaningAlways(v: Validator, q: Query)
    ensures (forall i: Interp, db: Database | Ordinary(i) :: FirstRowsKept(i, v, db, q)) <==>
            !(Escapes(v, q.limit) && CanOffer(q, v.maxRows)) && !(Raised(v, q.limit) && CanOffer(q, q.limit.n))
  {
    forall i: Interp, db: Database
      ensures FirstRowsKept(i, v, db, q) <==>
              !(Escapes(v, q.limit) && |Offered(i, db, map[], map[], q)| > v.maxRows) &&
              !(Raised(v, q.limit) && |Offered(i, db, map[], map[], q)| > q.limit.n)
    {
      CapKeepsMeaning(i, v, db, map[], map[], q);
    }
    if Escapes(v, q.limit) && CanOffer(q, v.maxRows) {
      var i: Interp, db: Database :| Ordinary(i) && |Offered(i, db, map[], map[], q)| > v.maxRows;
      assert !FirstRowsKept(i, v, db, q);
    }
    if Raised(v, q.limit) && CanOffer(q, q.limit.n) {
      var i: Interp, db: Database :| Ordinary(i) && |Offered(i, db, map[], map[], q)| > q.limit.n;
      assert !FirstRowsKept(i, v, db, q);
    }
  }

  lemma CapRows(rows: Rel, limit: Limit, cap: nat)
    ensures limit.NoLimit? ==> First(rows, cap) == First(Limited(rows, limit), cap)
    ensures !limit.NoLimit? && limit.n <= cap ==> Limited(rows, limit) == First(Limited(rows, limit), cap)
    ensures !limit.NoLimit? && limit.n > cap && |rows| > cap ==> |Limited(rows, limit)| > |First(Limited(rows, limit), cap)|
    ensures !limit.NoLimit? && limit.n > cap && |rows| <= cap ==> Limited(rows, limit) == First(Limited(rows, limit), cap)
    ensures !limit.NoLimit? && (limit.n >= cap || |rows| <= limit.n) ==> First(rows, cap) == First(Limited(rows, limit), cap)
    ensures !limit.NoLimit? && limit.n < cap && |rows| > limit.n ==> |First(rows, cap)| > |First(Limited(rows, limit), cap)|
  {
  }

  /** With an absent or literal limit the returned statement always gives the first `maxRows` rows, and a
      literal within the cap is left as it is. */
  lemma CapKeepsLiterals(i: Interp, v: Validator, db: Database, env: Env, outer: Row, q: Query)
    requires !q.limit.LimitComputed?
    ensures Eval(i, db, env, outer, Cap(v, q)) == First(Eval(i, db, env, outer, q), v.maxRows)
    ensures q.limit.LimitLiteral? && q.limit.n <= v.maxRows ==>
              Cap(v, q) == q && First(Eval(i, db, env, outer, q), v.maxRows) == Eval(i, db, env, outer, q)
  {
    CapKeepsMeaning(i, v, db, env, outer, q);
  }

  /** `SELECT v FROM schema.name LIMIT 1 + 1000000`. */
  function OnePlusMillion(schema: string, name: string): Query {
    Project(NoCtes, Table("", schema, name), Column("v"), LimitComputed(1000001, Some(1)))
  }

  /** `SELECT v FROM schema.name FETCH FIRST 5 ROWS ONLY`. */
  function FetchFive(schema: string, name: string): Query {
    Project(NoCtes, Table("", schema, name), Column("v"), LimitComputed(5, None))
  }

  /** Over any allowlisted relation with more rows than the cap, `LIMIT 1 + 1000000` is accepted, returned as it
      is, and exceeds the cap. */
  lemma ComputedLimitEscapes(i: Interp, v: Validator, db: Database, schema: string, name: string)
    requires Ordinary(i) && TableOk(v, {}, "", schema, name) && 1 <= v.maxRows < 1000001
    requires |db(Resolve(i, "", schema, name))| > v.maxRows
    ensures var q := OnePlusMillion(schema, name);
            Validate(v, Statements([Some(Read(q))])) == Ok(q) && |Eval(i, db, map[], map[], q)| > v.maxRows
  {
    var q := OnePlusMillion(schema, name);
    assert Present([Some(Read(q))]) == [Read(q)] + Present([Some(Read(q))][1..]);
    TableRows(i, db, v, schema, name, q.limit);
    CapBoundsExactly(i, v, db, map[], map[], q);
  }

  /** Over any allowlisted relation with more than five rows and no more than the cap, `FETCH FIRST 5 ROWS ONLY` is
      raised to the cap and returns all of them. */
  lemma FetchIsRaised(i: Interp, v: Validator, db: Database, schema: string, name: string)
    requires Ordinary(i) && TableOk(v, {}, "", schema, name)
    requires 5 < |db(Resolve(i, "", schema, name))| <= v.maxRows
    ensures var q := FetchFive(schema, name);
            Validate(v, Statements([Some(Read(q))])) == Ok(Cap(v, q)) && |Eval(i, db, map[], map[], q)| == 5 &&
            |Eval(i, db, map[], map[], Cap(v, q))| == |db(Resolve(i, "", schema, name))|
  {
    var q := FetchFive(schema, name);
    assert Present([Some(Read(q))]) == [Read(q)] + Present([Some(Read(q))][1..]);
    TableRows(i, db, v, schema, name, q.limit);
    LimitLeavesRows(i, db, map[], map[], q, LimitLiteral(v.maxRows));
  }

  lemma TableRows(i: Interp, db: Database, v: Validator, schema: string, name: string, limit: Limit)
    requires Ordinary(i) && TableOk(v, {}, "", schema, name)
    ensures var q := Project(NoCtes, Table("", schema, name), Column("v"), limit);
            Accepted(v, q) && |Offered(i, db, map[], map[], q)| == |db(Resolve(i, "", schema, name))|
  {
    assert |Upper(schema)| == |schema|;
    ProjectRows(i, db, map[], NoCtes, Table("", schema, name), Column("v"), limit);
    MapLength(db(Resolve(i, "", schema, name)), Projects(i, db, map[], map[], As(NoColumns, Column("v"), "v")));
  }

  /** Validating the returned statement again accepts it and returns it unchanged. */
  lemma ValidateIsIdempotent(v: Validator, p: Parsed, q: Query)
    requires Validate(v, p) == Ok(q)
    ensures Validate(v, Statements([Some(Read(q))])) == Ok(q)
  {
    var before := Present(p.list)[0].q;
    assert FunctionsInQuery(q) == FunctionsInQuery(before);
    assert CtesInQuery(q) == CtesInQuery(before);
    assert TablesInQuery(q, v, CtesInQuery(q)) == TablesInQuery(before, v, CtesInQuery(before));
    assert Present([Some(Read(q))]) == [Read(q)] + Present([Some(Read(q))][1..]);
  }

  /** Whatever `validate` returns depends on the allowlisted relations only, and has at most `maxRows` rows
      exactly when its limit does not escape the cap or there are not that many rows to return. */
  lemma ValidatedIsSafe(i: Interp, v: Validator, p: Parsed, q: Query, a: Database, b: Database)
    requires Validate(v, p) == Ok(q) && ConfinedQuery(i, v, {}, q, false) && Alike(i, v, a, b)
    ensures Eval(i, a, map[], map[], q) == Eval(i, b, map[], map[], q)
    ensures |Eval(i, a, map[], map[], q)| <= v.maxRows <==>
            !(Escapes(v, q.limit) && |Offered(i, a, map[], map[], q)| > v.maxRows)
  {
    ValidateIsIdempotent(v, p, q);
    assert Present([Some(Read(q))]) == [Read(q)] + Present([Some(Read(q))][1..]);
    AcceptedIsNoninterfering(i, v, q, a, b);
    CapBoundsExactly(i, v, a, map[], map[], q);
  }

  // ------------------------------------------------------------ the semantics is the usual one

  lemma {:induction false} FilterMembers(rows: Rel, p: Row -> bool, row: Row)
    ensures row in FilterRows(rows, p) <==> row in rows && p(row)
  {
    if rows != [] {
      FilterMembers(rows[1..], p, row);
      assert rows == [rows[0]] + rows[1..];
    }
  }

  lemma {:induction false} MapMembers(rows: Rel, f: Row -> Row, row: Row)
    ensures row in MapRows(rows, f) <==> exists r :: r in rows && f(r) == row
  {
    if rows != [] {
      MapMembers(rows[1..], f, row);
      assert rows == [rows[0]] + rows[1..];
    }
  }

  ghost predicate Paired(l: Rel, r: Rel, row: Row) { exists x, y :: x in l && y in r && row == x + y }

  lemma {:induction false} PairMembers(l: Rel, r: Rel, row: Row)
    ensures row in Pairs(l, r) <==> Paired(l, r, row)
  {
    if l != [] {
      var with := (y: Row) => l[0] + y;
      PairMembers(l[1..], r, row);
      MapMembers(r, with, row);
      assert l == [l[0]] + l[1..];
      if row in MapRows(r, with) {
        var y :| y in r && with(y) == row;
        assert l[0] in l && row == l[0] + y;
      }
      if Paired(l, r, row) {
        var x, y :| x in l && y in r && row == x + y;
        if x == l[0] { assert with(y) == row; }
      }
    }
  }

  /** A join has the pairs of rows for which its condition holds. */
  lemma JoinMeans(i: Interp, db: Database, env: Env, outer: Row, l: Source, r: Source, on: Expr, row: Row)
    ensures row in EvalSource(i, db, env, outer, Join(l, r, on)) <==>
            Paired(EvalSource(i, db, env, outer, l), EvalSource(i, db, env, outer, r), row) &&
            i.truth(EvalExpr(i, db, env, outer + row, on))
  {
    var left, right := EvalSource(i, db, env, outer, l), EvalSource(i, db, env, outer, r);
    PairMembers(left, right, row);
    FilterMembers(Pairs(left, right), Passes(i, db, env, outer, on), row);
  }

  /** A query without clauses has the columns of the source's rows for which its filter holds, in the scope of its
      bindings. */
  lemma SelectMeans(i: Interp, db: Database, env: Env, outer: Row, q: Query, row: Row)
    requires Ordinary(i) && q.Select? && q.rest == ""
    ensures var inner := BindCtes(i, db, env, outer, q.ctes);
            row in AllRows(i, db, env, outer, q) <==>
            exists r :: r in EvalSource(i, db, inner, outer, q.from) && i.truth(EvalExpr(i, db, inner, outer + r, q.filter)) &&
                        EvalColumns(i, db, inner, outer + r, q.columns) == row
  {
    var inner := BindCtes(i, db, env, outer, q.ctes);
    var rows, passes := EvalSource(i, db, inner, outer, q.from), Passes(i, db, inner, outer, q.filter);
    var columns := Projects(i, db, inner, outer, q.columns);
    MapMembers(FilterRows(rows, passes), columns, row);
    forall r ensures r in FilterRows(rows, passes) <==> r in rows && passes(r) { FilterMembers(rows, passes, r); }
    if r :| r in rows && passes(r) && EvalColumns(i, db, inner, outer + r, q.columns) == row {
      assert r in FilterRows(rows, passes) && columns(r) == row;
    }
    if row in MapRows(FilterRows(rows, passes), columns) {
      var r :| r in FilterRows(rows, passes) && columns(r) == row;
      assert r in rows && i.truth(EvalExpr(i, db, inner, outer + r, q.filter));
    }
  }
}
