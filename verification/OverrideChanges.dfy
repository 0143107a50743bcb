/** What the override rewrite changes, as a relation between a query and the rewritten one. */
module OverrideChanges {
  import opened Wrappers
  import opened QuerySyntax
  import opened SelectionOverrides

  /** Everything but selections is alike, and each SELECT outside WHERE clauses has its override or its own selection. */
  ghost predicate ChangesQuery(o: Overrides, a: Query, b: Query)
    decreases a, 1
  {
    b.node == a.node && b.withRecursive == a.withRecursive && b.backendClauses == a.backendClauses &&
    |b.ctes| == |a.ctes| && (forall i :: 0 <= i < |a.ctes| ==> ChangesCte(o, a.ctes[i], b.ctes[i])) &&
    ChangesSetExpr(o, a.body, b.body) && ChangesOrderBys(o, a.orderBy, b.orderBy) &&
    ChangesOption(o, a.limit, b.limit) && ChangesOption(o, a.offset, b.offset)
  }

  ghost predicate ChangesCte(o: Overrides, a: Cte, b: Cte)
    decreases a, 1
  {
    b.name == a.name && b.columns == a.columns && b.node == a.node && ChangesQuery(o, a.query, b.query)
  }

  ghost predicate ChangesSetExpr(o: Overrides, a: SetExpr, b: SetExpr)
    decreases a, 1
  {
    match (a, b)
    case (SelectBody(s), SelectBody(t)) => ChangesSelect(o, s, t)
    case (UnionAll(l, r, n), UnionAll(l', r', n')) => n' == n && ChangesSetExpr(o, l, l') && ChangesSetExpr(o, r, r')
    case (UnsupportedSet(_, _), _) => b == a
    case _ => false
  }

  ghost predicate ChangesSelect(o: Overrides, a: Select, b: Select)
    decreases a, 1
  {
    b.distinct == a.distinct && b.node == a.node &&
    (if a.node.nodeId in o then b.selection == o[a.node.nodeId] else b.selection == a.selection) &&
    |b.projection| == |a.projection| &&
    (forall i :: 0 <= i < |a.projection| ==> ChangesItem(o, a.projection[i], b.projection[i])) &&
    |b.from| == |a.from| && (forall i :: 0 <= i < |a.from| ==> ChangesTable(o, a.from[i], b.from[i])) &&
    ChangesExprs(o, a.groupBy, b.groupBy) && ChangesOption(o, a.having, b.having)
  }

  ghost predicate ChangesItem(o: Overrides, a: ProjectionItem, b: ProjectionItem)
    decreases a, 1
  {
    match (a, b)
    case (ProjectionExpr(e, alias, n), ProjectionExpr(e', alias', n')) => alias' == alias && n' == n && ChangesExpr(o, e, e')
    case (ProjectionExpr(_, _, _), _) => false
    case _ => b == a
  }

  ghost predicate ChangesTable(o: Overrides, a: TableWithJoins, b: TableWithJoins)
    decreases a, 1
  {
    b.node == a.node && ChangesRelation(o, a.relation, b.relation) &&
    |b.joins| == |a.joins| && forall i :: 0 <= i < |a.joins| ==> ChangesJoin(o, a.joins[i], b.joins[i])
  }

  ghost predicate ChangesJoin(o: Overrides, a: Join, b: Join)
    decreases a, 1
  {
    b.kind == a.kind && b.node == a.node && ChangesRelation(o, a.relation, b.relation) && ChangesOption(o, a.on, b.on)
  }

  ghost predicate ChangesRelation(o: Overrides, a: Relation, b: Relation)
    decreases a, 1
  {
    match (a, b)
    case (Derived(q, alias, n), Derived(q', alias', n')) => alias' == alias && n' == n && ChangesQuery(o, q, q')
    case (NestedJoin(t, alias, n), NestedJoin(t', alias', n')) => alias' == alias && n' == n && ChangesTable(o, t, t')
    case (Derived(_, _, _), _) => false
    case (NestedJoin(_, _, _), _) => false
    case _ => b == a
  }

  ghost predicate ChangesOrderBys(o: Overrides, a: seq<OrderBy>, b: seq<OrderBy>)
    decreases a, 0
  {
    |b| == |a| && forall i :: 0 <= i < |a| ==> ChangesOrderBy(o, a[i], b[i])
  }

  ghost predicate ChangesOrderBy(o: Overrides, a: OrderBy, b: OrderBy)
    decreases a, 1
  {
    b.asc == a.asc && b.nullsFirst == a.nullsFirst && b.node == a.node && ChangesExpr(o, a.expr, b.expr)
  }

  ghost predicate ChangesOption(o: Overrides, a: Option<Expr>, b: Option<Expr>)
    decreases a, 0
  {
    match (a, b)
    case (Some(e), Some(e')) => ChangesExpr(o, e, e')
    case _ => b == a
  }

  ghost predicate ChangesExprs(o: Overrides, a: seq<Expr>, b: seq<Expr>)
    decreases a, 0
  {
    |b| == |a| && forall i :: 0 <= i < |a| ==> ChangesExpr(o, a[i], b[i])
  }

  ghost predicate ChangesWhenThen(o: Overrides, a: WhenThen, b: WhenThen)
    decreases a, 1
  {
    ChangesExpr(o, a.condition, b.condition) && ChangesExpr(o, a.result, b.result)
  }

  ghost predicate ChangesWindow(o: Overrides, a: Option<WindowSpec>, b: Option<WindowSpec>)
    decreases a, 0
  {
    match (a, b)
    case (Some(w), Some(w')) =>
      w'.node == w.node && ChangesExprs(o, w.partitionBy, w'.partitionBy) && ChangesOrderBys(o, w.orderBy, w'.orderBy)
    case _ => b == a
  }

  ghost predicate ChangesCall(o: Overrides, a: FunctionCall, b: FunctionCall)
    decreases a, 1
  {
    b.function_ == a.function_ && b.distinct == a.distinct && ChangesExprs(o, a.args, b.args) &&
    ChangesOption(o, a.filter, b.filter) && ChangesWindow(o, a.over, b.over)
  }

  ghost predicate ChangesExpr(o: Overrides, a: Expr, b: Expr)
    decreases a, 1
  {
    b.node == a.node && ChangesKind(o, a.kind, b.kind)
  }

  ghost predicate ChangesKind(o: Overrides, a: ExprKind, b: ExprKind)
    decreases a, 1
  {
    match a
    case Unary(op, e) => b.Unary? && b.unaryOp == op && ChangesExpr(o, e, b.operand)
    case Binary(op, l, r) => b.Binary? && b.op == op && ChangesExpr(o, l, b.left) && ChangesExpr(o, r, b.right)
    case Function(c) => b.Function? && ChangesCall(o, c, b.call)
    case Case(operand, whenThen, elseResult) =>
      b.Case? && ChangesOption(o, operand, b.caseOperand) && ChangesOption(o, elseResult, b.elseResult) &&
      |b.whenThen| == |whenThen| && forall i :: 0 <= i < |whenThen| ==> ChangesWhenThen(o, whenThen[i], b.whenThen[i])
    case Cast(e, dataType) => b.Cast? && b.dataType == dataType && ChangesExpr(o, e, b.castExpr)
    case Between(e, low, high, negated) =>
      b.Between? && b.negated == negated && ChangesExpr(o, e, b.expr) && ChangesExpr(o, low, b.low) && ChangesExpr(o, high, b.high)
    case InList(e, list, negated) => b.InList? && b.negated == negated && ChangesExpr(o, e, b.expr) && ChangesExprs(o, list, b.list)
    case InSubquery(e, query, negated) =>
      b.InSubquery? && b.negated == negated && ChangesExpr(o, e, b.expr) && ChangesQuery(o, query, b.subquery)
    case ScalarSubquery(query) => b.ScalarSubquery? && ChangesQuery(o, query, b.query)
    case Exists(query) => b.Exists? && ChangesQuery(o, query, b.query)
    case Like(e, pattern, negated, caseInsensitive) =>
      b.Like? && b.negated == negated && b.caseInsensitive == caseInsensitive && ChangesExpr(o, e, b.expr) &&
      ChangesExpr(o, pattern, b.pattern)
    case IsNull(e, negated) => b.IsNull? && b.negated == negated && ChangesExpr(o, e, b.expr)
    case Tuple(items) => b.Tuple? && ChangesExprs(o, items, b.items)
    case Array(items) => b.Array? && ChangesExprs(o, items, b.items)
    case _ => b == a
  }

  // ---------- the rewrite is this relation ----------

  lemma {:induction false} QueryExactly(o: Overrides, a: Query, b: Query)
    ensures ChangesQuery(o, a, b) <==> b == TransformQuery(Overriding(o), a)
    decreases a, 1
  {
    hide ChangesCte, TransformCte, ChangesSetExpr, TransformSetExpr, ChangesOrderBys, TransformOrderBys, ChangesOption, TransformOption;
    if |b.ctes| == |a.ctes| {
      forall i | 0 <= i < |a.ctes| { CteExactly(o, a.ctes[i], b.ctes[i]); }
    }
    SetExprExactly(o, a.body, b.body);
    OrderBysExactly(o, a.orderBy, b.orderBy);
    OptionExactly(o, a.limit, b.limit);
    OptionExactly(o, a.offset, b.offset);
  }

  lemma {:induction false} CteExactly(o: Overrides, a: Cte, b: Cte)
    ensures ChangesCte(o, a, b) <==> b == TransformCte(Overriding(o), a)
    decreases a, 1
  {
    hide ChangesQuery, TransformQuery;
    QueryExactly(o, a.query, b.query);
  }

  lemma {:induction false} SetExprExactly(o: Overrides, a: SetExpr, b: SetExpr)
    ensures ChangesSetExpr(o, a, b) <==> b == TransformSetExpr(Overriding(o), a)
    decreases a, 1
  {
    hide ChangesSelect, TransformSelect;
    match (a, b)
    case (SelectBody(s), SelectBody(t)) => SelectExactly(o, s, t);
    case (UnionAll(l, r, _), UnionAll(l', r', _)) => SetExprExactly(o, l, l'); SetExprExactly(o, r, r');
    case _ =>
  }

  lemma {:induction false} SelectExactly(o: Overrides, a: Select, b: Select)
    ensures ChangesSelect(o, a, b) <==> b == TransformSelect(Overriding(o), a)
    decreases a, 1
  {
    hide ChangesItem, TransformItem, ChangesTable, TransformTable, ChangesExprs, TransformExprs, ChangesOption, TransformOption;
    if |b.projection| == |a.projection| {
      forall i | 0 <= i < |a.projection| { ItemExactly(o, a.projection[i], b.projection[i]); }
    }
    if |b.from| == |a.from| {
      forall i | 0 <= i < |a.from| { TableExactly(o, a.from[i], b.from[i]); }
    }
    ExprsExactly(o, a.groupBy, b.groupBy);
    OptionExactly(o, a.having, b.having);
  }

  lemma {:induction false} ItemExactly(o: Overrides, a: ProjectionItem, b: ProjectionItem)
    ensures ChangesItem(o, a, b) <==> b == TransformItem(Overriding(o), a)
    decreases a, 1
  {
    hide ChangesExpr, TransformExpr;
    if a.ProjectionExpr? && b.ProjectionExpr? { ExprExactly(o, a.expr, b.expr); }
  }

  lemma {:induction false} TableExactly(o: Overrides, a: TableWithJoins, b: TableWithJoins)
    ensures ChangesTable(o, a, b) <==> b == TransformTable(Overriding(o), a)
    decreases a, 1
  {
    hide ChangesRelation, TransformRelation, ChangesJoin, TransformJoin;
    RelationExactly(o, a.relation, b.relation);
    if |b.joins| == |a.joins| {
      forall i | 0 <= i < |a.joins| { JoinExactly(o, a.joins[i], b.joins[i]); }
    }
  }

  lemma {:induction false} JoinExactly(o: Overrides, a: Join, b: Join)
    ensures ChangesJoin(o, a, b) <==> b == TransformJoin(Overriding(o), a)
    decreases a, 1
  {
    hide ChangesRelation, TransformRelation, ChangesOption, TransformOption;
    RelationExactly(o, a.relation, b.relation);
    OptionExactly(o, a.on, b.on);
  }

  lemma {:induction false} RelationExactly(o: Overrides, a: Relation, b: Relation)
    ensures ChangesRelation(o, a, b) <==> b == TransformRelation(Overriding(o), a)
    decreases a, 1
  {
    hide ChangesQuery, TransformQuery, ChangesTable, TransformTable;
    match (a, b)
    case (Derived(q, _, _), Derived(q', _, _)) => QueryExactly(o, q, q');
    case (NestedJoin(t, _, _), NestedJoin(t', _, _)) => TableExactly(o, t, t');
    case _ =>
  }

  lemma {:induction false} OrderBysExactly(o: Overrides, a: seq<OrderBy>, b: seq<OrderBy>)
    ensures ChangesOrderBys(o, a, b) <==> b == TransformOrderBys(Overriding(o), a)
    decreases a, 0
  {
    hide ChangesOrderBy, TransformOrderBy;
    if |b| == |a| {
      forall i | 0 <= i < |a| { OrderByExactly(o, a[i], b[i]); }
    }
  }

  lemma {:induction false} OrderByExactly(o: Overrides, a: OrderBy, b: OrderBy)
    ensures ChangesOrderBy(o, a, b) <==> b == TransformOrderBy(Overriding(o), a)
    decreases a, 1
  {
    hide ChangesExpr, TransformExpr;
    ExprExactly(o, a.expr, b.expr);
  }

  lemma {:induction false} OptionExactly(o: Overrides, a: Option<Expr>, b: Option<Expr>)
    ensures ChangesOption(o, a, b) <==> b == TransformOption(Overriding(o), a)
    decreases a, 0
  {
    hide ChangesExpr, TransformExpr;
    if a.Some? && b.Some? { ExprExactly(o, a.value, b.value); }
  }

  lemma {:induction false} ExprsExactly(o: Overrides, a: seq<Expr>, b: seq<Expr>)
    ensures ChangesExprs(o, a, b) <==> b == TransformExprs(Overriding(o), a)
    decreases a, 0
  {
    hide ChangesExpr, TransformExpr;
    if |b| == |a| {
      forall i | 0 <= i < |a| { ExprExactly(o, a[i], b[i]); }
    }
  }

  lemma {:induction false} WhenThenExactly(o: Overrides, a: WhenThen, b: WhenThen)
    ensures ChangesWhenThen(o, a, b) <==> b == TransformWhenThen(Overriding(o), a)
    decreases a, 1
  {
    hide ChangesExpr, TransformExpr;
    ExprExactly(o, a.condition, b.condition);
    ExprExactly(o, a.result, b.result);
  }

  lemma {:induction false} WindowExactly(o: Overrides, a: Option<WindowSpec>, b: Option<WindowSpec>)
    ensures ChangesWindow(o, a, b) <==> b == TransformWindow(Overriding(o), a)
    decreases a, 0
  {
    hide ChangesExprs, TransformExprs, ChangesOrderBys, TransformOrderBys;
    if a.Some? && b.Some? {
      ExprsExactly(o, a.value.partitionBy, b.value.partitionBy);
      OrderBysExactly(o, a.value.orderBy, b.value.orderBy);
    }
  }

  lemma {:induction false} CallExactly(o: Overrides, a: FunctionCall, b: FunctionCall)
    ensures ChangesCall(o, a, b) <==> b == TransformCall(Overriding(o), a)
    decreases a, 1
  {
    hide ChangesExprs, TransformExprs, ChangesOption, TransformOption, ChangesWindow, TransformWindow;
    ExprsExactly(o, a.args, b.args);
    OptionExactly(o, a.filter, b.filter);
    WindowExactly(o, a.over, b.over);
  }

  lemma {:induction false} ExprExactly(o: Overrides, a: Expr, b: Expr)
    ensures ChangesExpr(o, a, b) <==> b == TransformExpr(Overriding(o), a)
    decreases a, 1
  {
    hide ChangesKind, TransformKind;
    KindExactly(o, a.kind, b.kind);
  }

  lemma {:induction false} KindExactly(o: Overrides, a: ExprKind, b: ExprKind)
    ensures ChangesKind(o, a, b) <==> b == TransformKind(Overriding(o), a)
    decreases a, 1
  {
    hide ChangesKind, TransformKind;
    match a
    case Unary(_, _) => UnaryExactly(o, a, b);
    case Binary(_, _, _) => BinaryExactly(o, a, b);
    case Function(_) => FunctionExactly(o, a, b);
    case Case(_, _, _) => CaseExactly(o, a, b);
    case Cast(_, _) => CastExactly(o, a, b);
    case Between(_, _, _, _) => BetweenExactly(o, a, b);
    case InList(_, _, _) => InListExactly(o, a, b);
    case InSubquery(_, _, _) => InSubqueryExactly(o, a, b);
    case ScalarSubquery(_) => ScalarSubqueryExactly(o, a, b);
    case Exists(_) => ExistsExactly(o, a, b);
    case Like(_, _, _, _) => LikeExactly(o, a, b);
    case IsNull(_, _) => IsNullExactly(o, a, b);
    case Tuple(_) => TupleExactly(o, a, b);
    case Array(_) => ArrayExactly(o, a, b);
    case _ => LeafExactly(o, a, b);
  }

  lemma LeafExactly(o: Overrides, a: ExprKind, b: ExprKind)
    requires a.Column? || a.Literal? || a.Parameter? || a.UnsupportedExpr?
    ensures ChangesKind(o, a, b) <==> b == TransformKind(Overriding(o), a)
  {
  }

  lemma {:induction false} UnaryExactly(o: Overrides, a: ExprKind, b: ExprKind)
    requires a.Unary?
    ensures ChangesKind(o, a, b) <==> b == TransformKind(Overriding(o), a)
    decreases a, 0
  {
    hide ChangesExpr, TransformExpr;
    if b.Unary? {
      ExprExactly(o, a.operand, b.operand);
    }
  }

  lemma {:induction false} BinaryExactly(o: Overrides, a: ExprKind, b: ExprKind)
    requires a.Binary?
    ensures ChangesKind(o, a, b) <==> b == TransformKind(Overriding(o), a)
    decreases a, 0
  {
    hide ChangesExpr, TransformExpr;
    if b.Binary? {
      ExprExactly(o, a.left, b.left);
      ExprExactly(o, a.right, b.right);
    }
  }

  lemma {:induction false} FunctionExactly(o: Overrides, a: ExprKind, b: ExprKind)
    requires a.Function?
    ensures ChangesKind(o, a, b) <==> b == TransformKind(Overriding(o), a)
    decreases a, 0
  {
    hide ChangesCall, TransformCall;
    if b.Function? {
      CallExactly(o, a.call, b.call);
    }
  }

  lemma {:induction false} CaseExactly(o: Overrides, a: ExprKind, b: ExprKind)
    requires a.Case?
    ensures ChangesKind(o, a, b) <==> b == TransformKind(Overriding(o), a)
    decreases a, 0
  {
    hide ChangesOption, TransformOption, ChangesWhenThen, TransformWhenThen;
    if b.Case? {
      OptionExactly(o, a.caseOperand, b.caseOperand);
      OptionExactly(o, a.elseResult, b.elseResult);
      if |b.whenThen| == |a.whenThen| {
        forall i | 0 <= i < |a.whenThen| { WhenThenExactly(o, a.whenThen[i], b.whenThen[i]); }
      }
    }
  }

  lemma {:induction false} CastExactly(o: Overrides, a: ExprKind, b: ExprKind)
    requires a.Cast?
    ensures ChangesKind(o, a, b) <==> b == TransformKind(Overriding(o), a)
    decreases a, 0
  {
    hide ChangesExpr, TransformExpr;
    if b.Cast? {
      ExprExactly(o, a.castExpr, b.castExpr);
    }
  }

  lemma {:induction false} BetweenExactly(o: Overrides, a: ExprKind, b: ExprKind)
    requires a.Between?
    ensures ChangesKind(o, a, b) <==> b == TransformKind(Overriding(o), a)
    decreases a, 0
  {
    hide ChangesExpr, TransformExpr;
    if b.Between? {
      ExprExactly(o, a.expr, b.expr);
      ExprExactly(o, a.low, b.low);
      ExprExactly(o, a.high, b.high);
    }
  }

  lemma {:induction false} InListExactly(o: Overrides, a: ExprKind, b: ExprKind)
    requires a.InList?
    ensures ChangesKind(o, a, b) <==> b == TransformKind(Overriding(o), a)
    decreases a, 0
  {
    hide ChangesExpr, TransformExpr, ChangesExprs, TransformExprs;
    if b.InList? {
      ExprExactly(o, a.expr, b.expr);
      ExprsExactly(o, a.list, b.list);
    }
  }

  lemma {:induction false} InSubqueryExactly(o: Overrides, a: ExprKind, b: ExprKind)
    requires a.InSubquery?
    ensures ChangesKind(o, a, b) <==> b == TransformKind(Overriding(o), a)
    decreases a, 0
  {
    hide ChangesExpr, TransformExpr, ChangesQuery, TransformQuery;
    if b.InSubquery? {
      ExprExactly(o, a.expr, b.expr);
      QueryExactly(o, a.subquery, b.subquery);
    }
  }

  lemma {:induction false} ScalarSubqueryExactly(o: Overrides, a: ExprKind, b: ExprKind)
    requires a.ScalarSubquery?
    ensures ChangesKind(o, a, b) <==> b == TransformKind(Overriding(o), a)
    decreases a, 0
  {
    hide ChangesQuery, TransformQuery;
    if b.ScalarSubquery? {
      QueryExactly(o, a.query, b.query);
    }
  }

  lemma {:induction false} ExistsExactly(o: Overrides, a: ExprKind, b: ExprKind)
    requires a.Exists?
    ensures ChangesKind(o, a, b) <==> b == TransformKind(Overriding(o), a)
    decreases a, 0
  {
    hide ChangesQuery, TransformQuery;
    if b.Exists? {
      QueryExactly(o, a.query, b.query);
    }
  }

  lemma {:induction false} LikeExactly(o: Overrides, a: ExprKind, b: ExprKind)
    requires a.Like?
    ensures ChangesKind(o, a, b) <==> b == TransformKind(Overriding(o), a)
    decreases a, 0
  {
    hide ChangesExpr, TransformExpr;
    if b.Like? {
      ExprExactly(o, a.expr, b.expr);
      ExprExactly(o, a.pattern, b.pattern);
    }
  }

  lemma {:induction false} IsNullExactly(o: Overrides, a: ExprKind, b: ExprKind)
    requires a.IsNull?
    ensures ChangesKind(o, a, b) <==> b == TransformKind(Overriding(o), a)
    decreases a, 0
  {
    hide ChangesExpr, TransformExpr;
    if b.IsNull? {
      ExprExactly(o, a.expr, b.expr);
    }
  }

  lemma {:induction false} TupleExactly(o: Overrides, a: ExprKind, b: ExprKind)
    requires a.Tuple?
    ensures ChangesKind(o, a, b) <==> b == TransformKind(Overriding(o), a)
    decreases a, 0
  {
    hide ChangesExprs, TransformExprs;
    if b.Tuple? {
      ExprsExactly(o, a.items, b.items);
    }
  }

  lemma {:induction false} ArrayExactly(o: Overrides, a: ExprKind, b: ExprKind)
    requires a.Array?
    ensures ChangesKind(o, a, b) <==> b == TransformKind(Overriding(o), a)
    decreases a, 0
  {
    hide ChangesExprs, TransformExprs;
    if b.Array? {
      ExprsExactly(o, a.items, b.items);
    }
  }

  /** The rewritten query is the one that differs in the selections overridden and in nothing else. */
  lemma OverridesChangeExactly(o: Overrides, q: Query, r: Query)
    ensures r == ApplySelectionOverrides(q, o) <==> ChangesQuery(o, q, r)
  {
    QueryExactly(o, q, r);
  }
}
