/** What the SQL guard accepts and why it refuses, stated over the nodes that occur in a query tree: reachable from its
    root by going to a child again and again. */
module SqlAcceptance {
  import opened Wrappers
  import opened Text
  import opened SqlGuard

  // ------------------------------------------------------------ nodes

  datatype Node =
    | QueryNode(q: Query)
    | CtesNode(ctes: Ctes)
    | SourceNode(s: Source)
    | ExprNode(e: Expr)
    | ExprsNode(es: Exprs)
    | ColumnsNode(c: Columns)

  /** The parts a node is made of. */
  function Children(t: Node): set<Node> {
    match t
    case QueryNode(Select(ctes, from, filter, columns, _, _, _)) =>
      {CtesNode(ctes), SourceNode(from), ExprNode(filter), ColumnsNode(columns)}
    case QueryNode(SetOperation(ctes, _, left, right, _, _, _)) => {CtesNode(ctes), QueryNode(left), QueryNode(right)}
    case CtesNode(With(before, _, body)) => {CtesNode(before), QueryNode(body)}
    case SourceNode(Subquery(q)) => {QueryNode(q)}
    case SourceNode(Join(left, right, on)) => {SourceNode(left), SourceNode(right), ExprNode(on)}
    case SourceNode(TableFunction(_, args)) => {ExprsNode(args)}
    case ExprNode(Call(_, args)) => {ExprsNode(args)}
    case ExprNode(InQuery(e, q)) => {ExprNode(e), QueryNode(q)}
    case ExprNode(Exists(q)) => {QueryNode(q)}
    case ExprNode(Scalar(q)) => {QueryNode(q)}
    case ExprsNode(Exprs(head, tail)) => {ExprNode(head), ExprsNode(tail)}
    case ColumnsNode(As(before, e, _)) => {ColumnsNode(before), ExprNode(e)}
    case _ => {}
  }

  predicate Descends(path: seq<Node>, from: Node, to: Node) {
    path != [] && path[0] == from && path[|path|-1] == to &&
    forall i | 0 <= i < |path| - 1 :: path[i+1] in Children(path[i])
  }

  /** `t` stands somewhere in `root`, at any depth. */
  ghost predicate Occurs(root: Node, t: Node) { exists path :: Descends(path, root, t) }

  lemma OccursItself(t: Node)
    ensures Occurs(t, t)
  {
    assert Descends([t], t, t);
  }

  lemma OccursBelow(root: Node, child: Node, t: Node)
    requires child in Children(root) && Occurs(child, t)
    ensures Occurs(root, t)
  {
    var path :| Descends(path, child, t);
    var longer := [root] + path;
    forall i | 0 <= i < |longer| - 1 ensures longer[i+1] in Children(longer[i]) {
      if i > 0 { assert longer[i] == path[i-1] && longer[i+1] == path[i]; }
    }
    assert Descends(longer, root, t);
  }

  lemma OccursAtOrBelow(root: Node, t: Node)
    requires Occurs(root, t) && t != root
    ensures exists child :: child in Children(root) && Occurs(child, t)
  {
    var path :| Descends(path, root, t);
    var rest := path[1..];
    assert rest[0] == path[1] && path[1] in Children(path[0]);
    forall i | 0 <= i < |rest| - 1 ensures rest[i+1] in Children(rest[i]) {
      assert rest[i] == path[i+1] && rest[i+1] == path[i+2] && path[i+1+1] in Children(path[i+1]);
    }
    assert Descends(rest, path[1], t);
  }

  /** Every node that occurs is good. */
  ghost predicate Throughout(root: Node, good: Node -> bool) { forall t | Occurs(root, t) :: good(t) }

  /** A tree is good throughout exactly when its root is good and its children's trees are. */
  lemma ThroughoutUnfolds(root: Node, good: Node -> bool)
    ensures Throughout(root, good) <==> good(root) && forall c | c in Children(root) :: Throughout(c, good)
  {
    OccursItself(root);
    if Throughout(root, good) {
      forall c, t | c in Children(root) && Occurs(c, t) ensures good(t) { OccursBelow(root, c, t); }
    }
    if good(root) && forall c | c in Children(root) :: Throughout(c, good) {
      forall t | Occurs(root, t) ensures good(t) {
        if t != root {
          OccursAtOrBelow(root, t);
          var c :| c in Children(root) && Occurs(c, t);
          assert Throughout(c, good);
        }
      }
    }
  }

  // ------------------------------------------------------------ function nodes

  /** The name under which a function node appears to the guard: the literal first argument of a function the parser
      knows, else the function's own name. */
  predicate NamedLike(fn: Function, args: Exprs, name: string) {
    match fn
    case Anonymous(own) => Upper(own) == name
    case Known(own) =>
      if args.Exprs? && args.head.Literal? && args.head.text != "" then Upper(args.head.text) == name else Upper(own) == name
  }

  predicate RefusedName(fn: Function, args: Exprs) { NamedLike(fn, args, "IDENTIFIER") || NamedLike(fn, args, "TABLE") }

  /** A call, among expressions or in place of a table, of one of the two functions that name relations by strings. */
  predicate RefusedFunction(t: Node) {
    (t.ExprNode? && t.e.Call? && RefusedName(t.e.fn, t.e.args)) ||
    (t.SourceNode? && t.s.TableFunction? && RefusedName(t.s.fn, t.s.args))
  }

  function NoRefusedFunction(): Node -> bool { (t: Node) => !RefusedFunction(t) }

  lemma FunctionOkExactly(fn: Function, args: Exprs)
    ensures FunctionOk(fn, args) <==> !RefusedName(fn, args)
  {
  }

  lemma {:induction false} FunctionsQuery(q: Query)
    ensures FunctionsInQuery(q) <==> Throughout(QueryNode(q), NoRefusedFunction())
    decreases q
  {
    ThroughoutUnfolds(QueryNode(q), NoRefusedFunction());
    FunctionsCtes(q.ctes);
    match q
    case Select(_, from, filter, columns, _, _, _) =>
      FunctionsSource(from);
      FunctionsExpr(filter);
      FunctionsColumns(columns);
    case SetOperation(_, _, left, right, _, _, _) =>
      FunctionsQuery(left);
      FunctionsQuery(right);
  }

  lemma {:induction false} FunctionsCtes(c: Ctes)
    ensures FunctionsInCtes(c) <==> Throughout(CtesNode(c), NoRefusedFunction())
    decreases c
  {
    ThroughoutUnfolds(CtesNode(c), NoRefusedFunction());
    if c.With? {
      FunctionsCtes(c.before);
      FunctionsQuery(c.body);
    }
  }

  lemma {:induction false} FunctionsSource(s: Source)
    ensures FunctionsInSource(s) <==> Throughout(SourceNode(s), NoRefusedFunction())
    decreases s
  {
    ThroughoutUnfolds(SourceNode(s), NoRefusedFunction());
    match s
    case NoSource =>
    case Table(_, _, _) =>
    case Subquery(q) => FunctionsQuery(q);
    case Join(l, r, on) =>
      FunctionsSource(l);
      FunctionsSource(r);
      FunctionsExpr(on);
    case TableFunction(fn, args) =>
      FunctionOkExactly(fn, args);
      FunctionsExprs(args);
  }

  lemma {:induction false} FunctionsExpr(e: Expr)
    ensures FunctionsInExpr(e) <==> Throughout(ExprNode(e), NoRefusedFunction())
    decreases e
  {
    ThroughoutUnfolds(ExprNode(e), NoRefusedFunction());
    match e
    case Literal(_) =>
    case Column(_) =>
    case Call(fn, args) =>
      FunctionOkExactly(fn, args);
      FunctionsExprs(args);
    case InQuery(x, q) =>
      FunctionsExpr(x);
      FunctionsQuery(q);
    case Exists(q) => FunctionsQuery(q);
    case Scalar(q) => FunctionsQuery(q);
  }

  lemma {:induction false} FunctionsExprs(es: Exprs)
    ensures FunctionsInExprs(es) <==> Throughout(ExprsNode(es), NoRefusedFunction())
    decreases es
  {
    ThroughoutUnfolds(ExprsNode(es), NoRefusedFunction());
    if es.Exprs? {
      FunctionsExpr(es.head);
      FunctionsExprs(es.tail);
    }
  }

  lemma {:induction false} FunctionsColumns(c: Columns)
    ensures FunctionsInColumns(c) <==> Throughout(ColumnsNode(c), NoRefusedFunction())
    decreases c
  {
    ThroughoutUnfolds(ColumnsNode(c), NoRefusedFunction());
    if c.As? {
      FunctionsColumns(c.before);
      FunctionsExpr(c.e);
    }
  }

  // ------------------------------------------------------------ aliases

  /** The node binds the alias `n`, whatever its case. */
  predicate Binds(t: Node, n: string) { t.CtesNode? && t.ctes.With? && t.ctes.name != "" && Upper(t.ctes.name) == n }

  function NotBinding(n: string): Node -> bool { (t: Node) => !Binds(t, n) }

  lemma {:induction false} AliasQuery(q: Query, n: string)
    ensures n !in CtesInQuery(q) <==> Throughout(QueryNode(q), NotBinding(n))
    decreases q
  {
    ThroughoutUnfolds(QueryNode(q), NotBinding(n));
    AliasCtes(q.ctes, n);
    match q
    case Select(_, from, filter, columns, _, _, _) =>
      AliasSource(from, n);
      AliasExpr(filter, n);
      AliasColumns(columns, n);
    case SetOperation(_, _, left, right, _, _, _) =>
      AliasQuery(left, n);
      AliasQuery(right, n);
  }

  lemma {:induction false} AliasCtes(c: Ctes, n: string)
    ensures n !in CtesInCtes(c) <==> Throughout(CtesNode(c), NotBinding(n))
    decreases c
  {
    ThroughoutUnfolds(CtesNode(c), NotBinding(n));
    if c.With? {
      AliasCtes(c.before, n);
      AliasQuery(c.body, n);
    }
  }

  lemma {:induction false} AliasSource(s: Source, n: string)
    ensures n !in CtesInSource(s) <==> Throughout(SourceNode(s), NotBinding(n))
    decreases s
  {
    ThroughoutUnfolds(SourceNode(s), NotBinding(n));
    match s
    case NoSource =>
    case Table(_, _, _) =>
    case Subquery(q) => AliasQuery(q, n);
    case Join(l, r, on) =>
      AliasSource(l, n);
      AliasSource(r, n);
      AliasExpr(on, n);
    case TableFunction(_, args) => AliasExprs(args, n);
  }

  lemma {:induction false} AliasExpr(e: Expr, n: string)
    ensures n !in CtesInExpr(e) <==> Throughout(ExprNode(e), NotBinding(n))
    decreases e
  {
    ThroughoutUnfolds(ExprNode(e), NotBinding(n));
    match e
    case Literal(_) =>
    case Column(_) =>
    case Call(_, args) => AliasExprs(args, n);
    case InQuery(x, q) =>
      AliasExpr(x, n);
      AliasQuery(q, n);
    case Exists(q) => AliasQuery(q, n);
    case Scalar(q) => AliasQuery(q, n);
  }

  lemma {:induction false} AliasExprs(es: Exprs, n: string)
    ensures n !in CtesInExprs(es) <==> Throughout(ExprsNode(es), NotBinding(n))
    decreases es
  {
    ThroughoutUnfolds(ExprsNode(es), NotBinding(n));
    if es.Exprs? {
      AliasExpr(es.head, n);
      AliasExprs(es.tail, n);
    }
  }

  lemma {:induction false} AliasColumns(c: Columns, n: string)
    ensures n !in CtesInColumns(c) <==> Throughout(ColumnsNode(c), NotBinding(n))
    decreases c
  {
    ThroughoutUnfolds(ColumnsNode(c), NotBinding(n));
    if c.As? {
      AliasColumns(c.before, n);
      AliasExpr(c.e, n);
    }
  }

  /** An alias is bound somewhere in the query. */
  ghost predicate BoundSomewhere(q: Query, n: string) { exists t :: Occurs(QueryNode(q), t) && Binds(t, n) }

  lemma BoundExactly(q: Query, n: string)
    ensures n in CtesInQuery(q) <==> BoundSomewhere(q, n)
  {
    AliasQuery(q, n);
    if BoundSomewhere(q, n) {
      var t :| Occurs(QueryNode(q), t) && Binds(t, n);
      assert !NotBinding(n)(t);
    }
  }

  // ------------------------------------------------------------ table nodes

  /** SCHEMA.TABLE of the platform's own database, on the allowlist and not of the information schema. */
  predicate Listed(v: Validator, catalog: string, schema: string, name: string) {
    schema != "" && Upper(schema) != "INFORMATION_SCHEMA" && (catalog == "" || Upper(catalog) == "FRAUD_DETECTION") &&
    (Upper(schema), Upper(name)) in v.allowed
  }

  predicate Nameable(name: string) { name != "" && name[0] != '@' }

  /** A table reference is a listed relation, or a bare name bound as an alias; a table function is neither. */
  predicate AllowedTable(v: Validator, aliases: set<string>, t: Node) {
    t.SourceNode? ==>
      !t.s.TableFunction? &&
      (t.s.Table? ==>
         Nameable(t.s.name) && ((t.s.schema == "" && Upper(t.s.name) in aliases) || Listed(v, t.s.catalog, t.s.schema, t.s.name)))
  }

  function AllowedTables(v: Validator, aliases: set<string>): Node -> bool { (t: Node) => AllowedTable(v, aliases, t) }

  lemma UpperShape(s: string)
    ensures Upper(s) == "" <==> s == ""
    ensures s != "" ==> (Upper(s)[0] == '@' <==> s[0] == '@')
  {
    assert |Upper(s)| == |s|;
    if s != "" { assert Upper(s)[0] == UpperChar(s[0]); }
  }

  lemma TableOkExactly(v: Validator, aliases: set<string>, catalog: string, schema: string, name: string)
    ensures TableOk(v, aliases, catalog, schema, name) <==> AllowedTable(v, aliases, SourceNode(Table(catalog, schema, name)))
  {
    UpperShape(name);
    UpperShape(schema);
    UpperShape(catalog);
  }

  lemma {:induction false} TablesQuery(q: Query, v: Validator, names: set<string>)
    ensures TablesInQuery(q, v, names) <==> Throughout(QueryNode(q), AllowedTables(v, names))
    decreases q
  {
    ThroughoutUnfolds(QueryNode(q), AllowedTables(v, names));
    TablesCtes(q.ctes, v, names);
    match q
    case Select(_, from, filter, columns, _, _, _) =>
      TablesSource(from, v, names);
      TablesExpr(filter, v, names);
      TablesColumns(columns, v, names);
    case SetOperation(_, _, left, right, _, _, _) =>
      TablesQuery(left, v, names);
      TablesQuery(right, v, names);
  }

  lemma {:induction false} TablesCtes(c: Ctes, v: Validator, names: set<string>)
    ensures TablesInCtes(c, v, names) <==> Throughout(CtesNode(c), AllowedTables(v, names))
    decreases c
  {
    ThroughoutUnfolds(CtesNode(c), AllowedTables(v, names));
    if c.With? {
      TablesCtes(c.before, v, names);
      TablesQuery(c.body, v, names);
    }
  }

  lemma {:induction false} TablesSource(s: Source, v: Validator, names: set<string>)
    ensures TablesInSource(s, v, names) <==> Throughout(SourceNode(s), AllowedTables(v, names))
    decreases s
  {
    ThroughoutUnfolds(SourceNode(s), AllowedTables(v, names));
    match s
    case NoSource =>
    case Table(catalog, schema, name) => TableOkExactly(v, names, catalog, schema, name);
    case Subquery(q) => TablesQuery(q, v, names);
    case Join(l, r, on) =>
      TablesSource(l, v, names);
      TablesSource(r, v, names);
      TablesExpr(on, v, names);
    case TableFunction(_, _) =>
  }

  lemma {:induction false} TablesExpr(e: Expr, v: Validator, names: set<string>)
    ensures TablesInExpr(e, v, names) <==> Throughout(ExprNode(e), AllowedTables(v, names))
    decreases e
  {
    ThroughoutUnfolds(ExprNode(e), AllowedTables(v, names));
    match e
    case Literal(_) =>
    case Column(_) =>
    case Call(_, args) => TablesExprs(args, v, names);
    case InQuery(x, q) =>
      TablesExpr(x, v, names);
      TablesQuery(q, v, names);
    case Exists(q) => TablesQuery(q, v, names);
    case Scalar(q) => TablesQuery(q, v, names);
  }

  lemma {:induction false} TablesExprs(es: Exprs, v: Validator, names: set<string>)
    ensures TablesInExprs(es, v, names) <==> Throughout(ExprsNode(es), AllowedTables(v, names))
    decreases es
  {
    ThroughoutUnfolds(ExprsNode(es), AllowedTables(v, names));
    if es.Exprs? {
      TablesExpr(es.head, v, names);
      TablesExprs(es.tail, v, names);
    }
  }

  lemma {:induction false} TablesColumns(c: Columns, v: Validator, names: set<string>)
    ensures TablesInColumns(c, v, names) <==> Throughout(ColumnsNode(c), AllowedTables(v, names))
    decreases c
  {
    ThroughoutUnfolds(ColumnsNode(c), AllowedTables(v, names));
    if c.As? {
      TablesColumns(c.before, v, names);
      TablesExpr(c.e, v, names);
    }
  }

  // ------------------------------------------------------------ acceptance and each refusal

  /** A relation that the query may not read: a table function, a name that no relation can have, or a reference that
      neither names a listed relation nor, bare, an alias bound anywhere in the query. */
  ghost predicate ForbiddenTable(v: Validator, q: Query, t: Node) {
    t.SourceNode? &&
    (t.s.TableFunction? ||
     (t.s.Table? &&
      (!Nameable(t.s.name) ||
       !((t.s.schema == "" && BoundSomewhere(q, Upper(t.s.name))) || Listed(v, t.s.catalog, t.s.schema, t.s.name)))))
  }

  ghost predicate CallsRefused(q: Query) { exists t :: Occurs(QueryNode(q), t) && RefusedFunction(t) }

  ghost predicate ReadsForbidden(v: Validator, q: Query) { exists t :: Occurs(QueryNode(q), t) && ForbiddenTable(v, q, t) }

  lemma CallsRefusedExactly(q: Query)
    ensures CallsRefused(q) <==> !FunctionsInQuery(q)
  {
    FunctionsQuery(q);
    if CallsRefused(q) {
      var t :| Occurs(QueryNode(q), t) && RefusedFunction(t);
      assert !NoRefusedFunction()(t);
    }
  }

  lemma ForbiddenExactly(v: Validator, q: Query, t: Node)
    ensures ForbiddenTable(v, q, t) <==> !AllowedTable(v, CtesInQuery(q), t)
  {
    if t.SourceNode? && t.s.Table? { BoundExactly(q, Upper(t.s.name)); }
  }

  lemma ReadsForbiddenExactly(v: Validator, q: Query)
    ensures ReadsForbidden(v, q) <==> !TablesInQuery(q, v, CtesInQuery(q))
  {
    var allowed := AllowedTables(v, CtesInQuery(q));
    TablesQuery(q, v, CtesInQuery(q));
    forall t ensures ForbiddenTable(v, q, t) <==> !allowed(t) { ForbiddenExactly(v, q, t); }
    if ReadsForbidden(v, q) {
      var t :| Occurs(QueryNode(q), t) && ForbiddenTable(v, q, t);
      assert !allowed(t);
    }
  }

  /** The list holds this statement and otherwise only empty ones. */
  ghost predicate Only(list: seq<Option<Statement>>, st: Statement) {
    exists i | 0 <= i < |list| :: list[i] == Some(st) && forall j | 0 <= j < |list| && j != i :: list[j].None?
  }

  lemma {:induction false} NonePresent(list: seq<Option<Statement>>)
    ensures Present(list) == [] <==> forall j | 0 <= j < |list| :: list[j].None?
  {
    if list != [] {
      NonePresent(list[1..]);
      if forall j | 0 <= j < |list[1..]| :: list[1..][j].None? {
        forall j | 1 <= j < |list| ensures list[j].None? { assert list[j] == list[1..][j-1]; }
      }
    }
  }

  lemma {:induction false} OnlyExactly(list: seq<Option<Statement>>, st: Statement)
    ensures Present(list) == [st] <==> Only(list, st)
  {
    if list != [] {
      var rest := list[1..];
      NonePresent(rest);
      OnlyExactly(rest, st);
      assert forall j | 0 <= j < |rest| :: rest[j] == list[j+1];
      if list[0].None? { OnlyLater(list, st); } else { OnlyFirst(list, st); }
    }
  }

  lemma {:induction false} PresentCount(list: seq<Option<Statement>>)
    ensures |Present(list)| + multiset(list)[None] == |list|
  {
    if list != [] {
      PresentCount(list[1..]);
      assert list == [list[0]] + list[1..];
    }
  }

  lemma OnlyFirst(list: seq<Option<Statement>>, st: Statement)
    requires list != [] && list[0].Some?
    ensures Only(list, st) <==> list[0] == Some(st) && forall j | 0 <= j < |list[1..]| :: list[1..][j].None?
  {
    var rest := list[1..];
    assert forall j | 0 <= j < |rest| :: rest[j] == list[j+1];
    if list[0] == Some(st) && forall j | 0 <= j < |rest| :: rest[j].None? {
      forall j | 0 <= j < |list| && j != 0 ensures list[j].None? { assert list[j] == rest[j-1]; }
    }
  }

  lemma OnlyLater(list: seq<Option<Statement>>, st: Statement)
    requires list != [] && list[0].None?
    ensures Only(list, st) <==> Only(list[1..], st)
  {
    var rest := list[1..];
    if Only(rest, st) {
      var i :| 0 <= i < |rest| && rest[i] == Some(st) && forall j | 0 <= j < |rest| && j != i :: rest[j].None?;
      forall j | 0 <= j < |list| && j != i + 1 ensures list[j].None? { if j > 0 { assert list[j] == rest[j-1]; } }
      assert list[i+1] == Some(st);
    }
    if Only(list, st) {
      var i :| 0 <= i < |list| && list[i] == Some(st) && forall j | 0 <= j < |list| && j != i :: list[j].None?;
      forall j | 0 <= j < |rest| && j != i - 1 ensures rest[j].None? { assert rest[j] == list[j+1]; }
      assert rest[i-1] == Some(st);
    }
  }

  /** A statement is accepted exactly when no refused function and no forbidden relation occurs in it at any depth; it
      is returned as it is but for its limit. */
  lemma AcceptsExactly(v: Validator, q: Query)
    ensures var r := Validate(v, Statements([Some(Read(q))]));
            (r.Ok? <==> !CallsRefused(q) && !ReadsForbidden(v, q)) && (r.Ok? ==> r.value == q.(limit := r.value.limit))
  {
    assert Present([Some(Read(q))]) == [Read(q)] + Present([Some(Read(q))][1..]);
    CallsRefusedExactly(q);
    ReadsForbiddenExactly(v, q);
  }

  /** And every refusal has one cause: no text; text that does not parse; anything but one statement; a statement that
      is not a read; a refused function; and, without one, a forbidden relation. */
  lemma RefusesExactly(v: Validator, p: Parsed)
    ensures Validate(v, p) == Err(NoSql) <==> p.Blank?
    ensures Validate(v, p) == Err(Unparsable) <==> p.ParseError?
    ensures Validate(v, p).Err? && Validate(v, p).error.NotOneStatement? <==> p.Statements? && forall st :: !Only(p.list, st)
    ensures Validate(v, p).Err? && Validate(v, p).error.NotOneStatement? ==>
              Validate(v, p).error.count + multiset(p.list)[None] == |p.list|
    ensures Validate(v, p) == Err(NotARead) <==> p.Statements? && exists st :: Only(p.list, st) && !st.Read?
    ensures Validate(v, p) == Err(ForbiddenConstruct) <==> p.Statements? && exists q :: Only(p.list, Read(q)) && CallsRefused(q)
    ensures Validate(v, p) == Err(ForbiddenRelation) <==>
            p.Statements? && exists q :: Only(p.list, Read(q)) && !CallsRefused(q) && ReadsForbidden(v, q)
  {
    if p.Statements? {
      PresentCount(p.list);
      forall st ensures Present(p.list) == [st] <==> Only(p.list, st) { OnlyExactly(p.list, st); }
      if |Present(p.list)| == 1 {
        var st := Present(p.list)[0];
        assert Present(p.list) == [st];
        if st.Read? {
          CallsRefusedExactly(st.q);
          ReadsForbiddenExactly(v, st.q);
        }
      }
    }
  }
}
