/** The generic tree traversal and the rewrite that replaces WHERE clauses by node id (opt/src/syntax.rs). */
module SelectionOverrides {
  import opened Wrappers
  import opened QuerySyntax

  type Overrides = map<string, Option<Expr>>

  /** A transformer overrides `transform_select` or none of the hooks. */
  datatype Transformer = Default | Overriding(overrides: Overrides)

  // ---------- every SELECT outside a WHERE clause has the selection its override gives ----------

  ghost predicate ObeysQuery(o: Overrides, q: Query) {
    ObeysCtes(o, q.ctes) && ObeysSetExpr(o, q.body) &&
    ObeysOrderBys(o, q.orderBy) && ObeysOption(o, q.limit) && ObeysOption(o, q.offset)
  }

  ghost predicate ObeysCte(o: Overrides, c: Cte) {
    ObeysQuery(o, c.query)
  }

  ghost predicate ObeysCtes(o: Overrides, ctes: seq<Cte>) {
    forall i :: 0 <= i < |ctes| ==> ObeysCte(o, ctes[i])
  }

  ghost predicate ObeysSetExpr(o: Overrides, e: SetExpr) {
    match e
    case SelectBody(select) => ObeysSelect(o, select)
    case UnionAll(left, right, _) => ObeysSetExpr(o, left) && ObeysSetExpr(o, right)
    case UnsupportedSet(_, _) => true
  }

  ghost predicate ObeysSelect(o: Overrides, s: Select) {
    (s.node.nodeId in o ==> s.selection == o[s.node.nodeId]) &&
    ObeysItems(o, s.projection) &&
    ObeysTables(o, s.from) &&
    ObeysExprs(o, s.groupBy) && ObeysOption(o, s.having)
  }

  ghost predicate ObeysItem(o: Overrides, item: ProjectionItem) {
    item.ProjectionExpr? ==> ObeysExpr(o, item.expr)
  }

  ghost predicate ObeysItems(o: Overrides, items: seq<ProjectionItem>) {
    forall i :: 0 <= i < |items| ==> ObeysItem(o, items[i])
  }

  ghost predicate ObeysTable(o: Overrides, t: TableWithJoins) {
    ObeysRelation(o, t.relation) && ObeysJoins(o, t.joins)
  }

  ghost predicate ObeysTables(o: Overrides, tables: seq<TableWithJoins>) {
    forall i :: 0 <= i < |tables| ==> ObeysTable(o, tables[i])
  }

  ghost predicate ObeysJoin(o: Overrides, j: Join) {
    ObeysRelation(o, j.relation) && ObeysOption(o, j.on)
  }

  ghost predicate ObeysJoins(o: Overrides, joins: seq<Join>) {
    forall i :: 0 <= i < |joins| ==> ObeysJoin(o, joins[i])
  }

  ghost predicate ObeysRelation(o: Overrides, r: Relation) {
    match r
    case Derived(query, _, _) => ObeysQuery(o, query)
    case NestedJoin(table, _, _) => ObeysTable(o, table)
    case _ => true
  }

  ghost predicate ObeysOrderBy(o: Overrides, order: OrderBy) {
    ObeysExpr(o, order.expr)
  }

  ghost predicate ObeysOrderBys(o: Overrides, os: seq<OrderBy>) {
    forall i :: 0 <= i < |os| ==> ObeysOrderBy(o, os[i])
  }

  ghost predicate ObeysOption(o: Overrides, e: Option<Expr>) {
    e.Some? ==> ObeysExpr(o, e.value)
  }

  ghost predicate ObeysExprs(o: Overrides, es: seq<Expr>) {
    forall i :: 0 <= i < |es| ==> ObeysExpr(o, es[i])
  }

  ghost predicate ObeysWhenThen(o: Overrides, w: WhenThen) {
    ObeysExpr(o, w.condition) && ObeysExpr(o, w.result)
  }

  ghost predicate ObeysWhenThens(o: Overrides, ws: seq<WhenThen>) {
    forall i :: 0 <= i < |ws| ==> ObeysWhenThen(o, ws[i])
  }

  ghost predicate ObeysWindow(o: Overrides, w: Option<WindowSpec>) {
    w.Some? ==> ObeysExprs(o, w.value.partitionBy) && ObeysOrderBys(o, w.value.orderBy)
  }

  ghost predicate ObeysCall(o: Overrides, c: FunctionCall) {
    ObeysExprs(o, c.args) && ObeysOption(o, c.filter) && ObeysWindow(o, c.over)
  }

  ghost predicate ObeysExpr(o: Overrides, e: Expr) {
    ObeysKind(o, e.kind)
  }

  ghost predicate ObeysKind(o: Overrides, kind: ExprKind) {
    match kind
    case Unary(_, inner) => ObeysExpr(o, inner)
    case Binary(_, left, right) => ObeysExpr(o, left) && ObeysExpr(o, right)
    case Function(c) => ObeysCall(o, c)
    case Case(operand, whenThen, elseResult) =>
      ObeysOption(o, operand) && ObeysOption(o, elseResult) &&
      ObeysWhenThens(o, whenThen)
    case Cast(inner, _) => ObeysExpr(o, inner)
    case Between(inner, low, high, _) => ObeysExpr(o, inner) && ObeysExpr(o, low) && ObeysExpr(o, high)
    case InList(inner, list, _) => ObeysExpr(o, inner) && ObeysExprs(o, list)
    case InSubquery(inner, subquery, _) => ObeysExpr(o, inner) && ObeysQuery(o, subquery)
    case ScalarSubquery(query) => ObeysQuery(o, query)
    case Exists(query) => ObeysQuery(o, query)
    case Like(inner, pattern, _, _) => ObeysExpr(o, inner) && ObeysExpr(o, pattern)
    case IsNull(inner, _) => ObeysExpr(o, inner)
    case Tuple(items) => ObeysExprs(o, items)
    case Array(items) => ObeysExprs(o, items)
    case _ => true
  }

  // ---------- the traversal ----------

  /** Leaves every selection as it is. */
  predicate Neutral(t: Transformer) {
    t.Default? || t.overrides == map[]
  }

  function TransformQuery(t: Transformer, q: Query): (r: Query)
    ensures Neutral(t) || (t.Overriding? && ObeysQuery(t.overrides, q)) ==> r == q
    ensures t.Overriding? ==> ObeysQuery(t.overrides, r)
    decreases q, 1
  {
    Query(q.node, TransformCtes(t, q.ctes), q.withRecursive, TransformSetExpr(t, q.body),
          TransformOrderBys(t, q.orderBy), TransformOption(t, q.limit), TransformOption(t, q.offset), q.backendClauses)
  }

  function TransformCtes(t: Transformer, ctes: seq<Cte>): (r: seq<Cte>)
    ensures Neutral(t) || (t.Overriding? && ObeysCtes(t.overrides, ctes)) ==> r == ctes
    ensures |r| == |ctes| && forall i :: 0 <= i < |ctes| ==> r[i] == TransformCte(t, ctes[i])
    decreases ctes, 0
  {
    if ctes == [] then []
    else [TransformCte(t, ctes[0])] + TransformCtes(t, ctes[1..])
  }

  function TransformCte(t: Transformer, c: Cte): (r: Cte)
    ensures Neutral(t) || (t.Overriding? && ObeysCte(t.overrides, c)) ==> r == c
    ensures t.Overriding? ==> ObeysCte(t.overrides, r)
    decreases c, 1
  {
    Cte(c.name, c.columns, TransformQuery(t, c.query), c.node)
  }

  function TransformSetExpr(t: Transformer, e: SetExpr): (r: SetExpr)
    ensures Neutral(t) || (t.Overriding? && ObeysSetExpr(t.overrides, e)) ==> r == e
    ensures t.Overriding? ==> ObeysSetExpr(t.overrides, r)
    decreases e, 1
  {
    match e
    case SelectBody(select) => SelectBody(TransformSelect(t, select))
    case UnionAll(left, right, node) => UnionAll(TransformSetExpr(t, left), TransformSetExpr(t, right), node)
    case UnsupportedSet(description, node) => UnsupportedSet(description, node)
  }

  /** The hook: an override map gives the selection and leaves a kept one untransformed. */
  function TransformSelect(t: Transformer, s: Select): (r: Select)
    ensures Neutral(t) || (t.Overriding? && ObeysSelect(t.overrides, s)) ==> r == s
    ensures t.Overriding? ==> ObeysSelect(t.overrides, r)
    decreases s, 1
  {
    Select(s.distinct, TransformItems(t, s.projection), TransformTables(t, s.from),
           match t
           case Default => TransformOption(t, s.selection)
           case Overriding(overrides) => Override(overrides, s.node.nodeId, s.selection),
           TransformExprs(t, s.groupBy), TransformOption(t, s.having), s.node)
  }

  function Override(overrides: Overrides, nodeId: string, selection: Option<Expr>): Option<Expr> {
    if nodeId in overrides then overrides[nodeId] else selection
  }

  function TransformItems(t: Transformer, items: seq<ProjectionItem>): (r: seq<ProjectionItem>)
    ensures Neutral(t) || (t.Overriding? && ObeysItems(t.overrides, items)) ==> r == items
    ensures |r| == |items| && forall i :: 0 <= i < |items| ==> r[i] == TransformItem(t, items[i])
    decreases items, 0
  {
    if items == [] then []
    else [TransformItem(t, items[0])] + TransformItems(t, items[1..])
  }

  function TransformItem(t: Transformer, item: ProjectionItem): (r: ProjectionItem)
    ensures Neutral(t) || (t.Overriding? && ObeysItem(t.overrides, item)) ==> r == item
    ensures t.Overriding? ==> ObeysItem(t.overrides, r)
    decreases item, 1
  {
    match item
    case Wildcard(qualifier, node) => Wildcard(qualifier, node)
    case ProjectionExpr(expr, alias, node) => ProjectionExpr(TransformExpr(t, expr), alias, node)
    case UnsupportedItem(description, node) => UnsupportedItem(description, node)
  }

  function TransformTables(t: Transformer, tables: seq<TableWithJoins>): (r: seq<TableWithJoins>)
    ensures Neutral(t) || (t.Overriding? && ObeysTables(t.overrides, tables)) ==> r == tables
    ensures |r| == |tables| && forall i :: 0 <= i < |tables| ==> r[i] == TransformTable(t, tables[i])
    decreases tables, 0
  {
    if tables == [] then [] else [TransformTable(t, tables[0])] + TransformTables(t, tables[1..])
  }

  function TransformTable(t: Transformer, table: TableWithJoins): (r: TableWithJoins)
    ensures Neutral(t) || (t.Overriding? && ObeysTable(t.overrides, table)) ==> r == table
    ensures t.Overriding? ==> ObeysTable(t.overrides, r)
    decreases table, 1
  {
    TableWithJoins(TransformRelation(t, table.relation), TransformJoins(t, table.joins), table.node)
  }

  function TransformJoins(t: Transformer, joins: seq<Join>): (r: seq<Join>)
    ensures Neutral(t) || (t.Overriding? && ObeysJoins(t.overrides, joins)) ==> r == joins
    ensures |r| == |joins| && forall i :: 0 <= i < |joins| ==> r[i] == TransformJoin(t, joins[i])
    decreases joins, 0
  {
    if joins == [] then []
    else [TransformJoin(t, joins[0])] + TransformJoins(t, joins[1..])
  }

  function TransformJoin(t: Transformer, j: Join): (r: Join)
    ensures Neutral(t) || (t.Overriding? && ObeysJoin(t.overrides, j)) ==> r == j
    ensures t.Overriding? ==> ObeysJoin(t.overrides, r)
    decreases j, 1
  {
    Join(j.kind, TransformRelation(t, j.relation), TransformOption(t, j.on), j.node)
  }

  function TransformRelation(t: Transformer, relation: Relation): (r: Relation)
    ensures Neutral(t) || (t.Overriding? && ObeysRelation(t.overrides, relation)) ==> r == relation
    ensures t.Overriding? ==> ObeysRelation(t.overrides, r)
    decreases relation, 1
  {
    match relation
    case Table(name, alias, node) => Table(name, alias, node)
    case Derived(query, alias, node) => Derived(TransformQuery(t, query), alias, node)
    case NestedJoin(table, alias, node) => NestedJoin(TransformTable(t, table), alias, node)
    case UnsupportedRelation(description, node) => UnsupportedRelation(description, node)
  }

  function TransformOrderBys(t: Transformer, os: seq<OrderBy>): (r: seq<OrderBy>)
    ensures Neutral(t) || (t.Overriding? && ObeysOrderBys(t.overrides, os)) ==> r == os
    ensures |r| == |os| && forall i :: 0 <= i < |os| ==> r[i] == TransformOrderBy(t, os[i])
    ensures t.Overriding? ==> ObeysOrderBys(t.overrides, r)
    decreases os, 0
  {
    if os == [] then []
    else [TransformOrderBy(t, os[0])] + TransformOrderBys(t, os[1..])
  }

  function TransformOrderBy(t: Transformer, o: OrderBy): (r: OrderBy)
    ensures Neutral(t) || (t.Overriding? && ObeysOrderBy(t.overrides, o)) ==> r == o
    ensures t.Overriding? ==> ObeysOrderBy(t.overrides, r)
    decreases o, 1
  {
    OrderBy(TransformExpr(t, o.expr), o.asc, o.nullsFirst, o.node)
  }

  function TransformOption(t: Transformer, e: Option<Expr>): (r: Option<Expr>)
    ensures Neutral(t) || (t.Overriding? && ObeysOption(t.overrides, e)) ==> r == e
    ensures t.Overriding? ==> ObeysOption(t.overrides, r)
    decreases e, 0
  {
    match e
    case None => None
    case Some(expr) => Some(TransformExpr(t, expr))
  }

  function TransformExprs(t: Transformer, es: seq<Expr>): (r: seq<Expr>)
    ensures Neutral(t) || (t.Overriding? && ObeysExprs(t.overrides, es)) ==> r == es
    ensures |r| == |es| && forall i :: 0 <= i < |es| ==> r[i] == TransformExpr(t, es[i])
    ensures t.Overriding? ==> ObeysExprs(t.overrides, r)
    decreases es, 0
  {
    if es == [] then [] else [TransformExpr(t, es[0])] + TransformExprs(t, es[1..])
  }

  function TransformWhenThens(t: Transformer, ws: seq<WhenThen>): (r: seq<WhenThen>)
    ensures Neutral(t) || (t.Overriding? && ObeysWhenThens(t.overrides, ws)) ==> r == ws
    ensures |r| == |ws| && forall i :: 0 <= i < |ws| ==> r[i] == TransformWhenThen(t, ws[i])
    decreases ws, 0
  {
    if ws == [] then []
    else [TransformWhenThen(t, ws[0])] + TransformWhenThens(t, ws[1..])
  }

  function TransformWhenThen(t: Transformer, w: WhenThen): (r: WhenThen)
    ensures Neutral(t) || (t.Overriding? && ObeysWhenThen(t.overrides, w)) ==> r == w
    ensures t.Overriding? ==> ObeysWhenThen(t.overrides, r)
    decreases w, 1
  {
    WhenThen(TransformExpr(t, w.condition), TransformExpr(t, w.result))
  }

  function TransformWindow(t: Transformer, w: Option<WindowSpec>): (r: Option<WindowSpec>)
    ensures Neutral(t) || (t.Overriding? && ObeysWindow(t.overrides, w)) ==> r == w
    ensures t.Overriding? ==> ObeysWindow(t.overrides, r)
    decreases w, 0
  {
    match w
    case None => None
    case Some(window) =>
      Some(WindowSpec(TransformExprs(t, window.partitionBy), TransformOrderBys(t, window.orderBy), window.node))
  }

  function TransformExpr(t: Transformer, e: Expr): (r: Expr)
    ensures Neutral(t) || (t.Overriding? && ObeysExpr(t.overrides, e)) ==> r == e
    ensures t.Overriding? ==> ObeysExpr(t.overrides, r)
    decreases e, 1
  {
    Expr(TransformKind(t, e.kind), e.node)
  }

  function TransformKind(t: Transformer, kind: ExprKind): (r: ExprKind)
    ensures Neutral(t) || (t.Overriding? && ObeysKind(t.overrides, kind)) ==> r == kind
    ensures t.Overriding? ==> ObeysKind(t.overrides, r)
    decreases kind, 1
  {
    if HoldsQuery(kind) then TransformQueryHolder(t, kind)
    else if HoldsList(kind) then TransformListHolder(t, kind)
    else if HoldsParts(kind) then TransformPartsHolder(t, kind)
    else TransformSimple(t, kind)
  }

  predicate HoldsQuery(kind: ExprKind) {
    kind.ScalarSubquery? || kind.Exists? || kind.InSubquery?
  }

  function TransformQueryHolder(t: Transformer, kind: ExprKind): (r: ExprKind)
    requires HoldsQuery(kind)
    ensures Neutral(t) || (t.Overriding? && ObeysKind(t.overrides, kind)) ==> r == kind
    ensures t.Overriding? ==> ObeysKind(t.overrides, r)
    decreases kind, 0
  {
    match kind
    case ScalarSubquery(query) => ScalarSubquery(TransformQuery(t, query))
    case Exists(query) => Exists(TransformQuery(t, query))
    case InSubquery(inner, subquery, negated) =>
      InSubquery(TransformExpr(t, inner), TransformQuery(t, subquery), negated)
  }

  predicate HoldsList(kind: ExprKind) {
    kind.InList? || kind.Tuple? || kind.Array?
  }

  function TransformListHolder(t: Transformer, kind: ExprKind): (r: ExprKind)
    requires HoldsList(kind)
    ensures Neutral(t) || (t.Overriding? && ObeysKind(t.overrides, kind)) ==> r == kind
    ensures t.Overriding? ==> ObeysKind(t.overrides, r)
    decreases kind, 0
  {
    match kind
    case InList(inner, list, negated) => InList(TransformExpr(t, inner), TransformExprs(t, list), negated)
    case Tuple(items) => Tuple(TransformExprs(t, items))
    case Array(items) => Array(TransformExprs(t, items))
  }

  predicate HoldsParts(kind: ExprKind) {
    kind.Case? || kind.Between? || kind.Like?
  }

  function TransformPartsHolder(t: Transformer, kind: ExprKind): (r: ExprKind)
    requires HoldsParts(kind)
    ensures Neutral(t) || (t.Overriding? && ObeysKind(t.overrides, kind)) ==> r == kind
    ensures t.Overriding? ==> ObeysKind(t.overrides, r)
    decreases kind, 0
  {
    match kind
    case Case(operand, whenThen, elseResult) =>
      Case(TransformOption(t, operand), TransformWhenThens(t, whenThen), TransformOption(t, elseResult))
    case Between(inner, low, high, negated) =>
      Between(TransformExpr(t, inner), TransformExpr(t, low), TransformExpr(t, high), negated)
    case Like(inner, pattern, negated, caseInsensitive) =>
      Like(TransformExpr(t, inner), TransformExpr(t, pattern), negated, caseInsensitive)
  }

  function TransformSimple(t: Transformer, kind: ExprKind): (r: ExprKind)
    requires !HoldsQuery(kind) && !HoldsList(kind) && !HoldsParts(kind)
    ensures Neutral(t) || (t.Overriding? && ObeysKind(t.overrides, kind)) ==> r == kind
    ensures t.Overriding? ==> ObeysKind(t.overrides, r)
    decreases kind, 0
  {
    match kind
    case Column(relation, name) => Column(relation, name)
    case Literal(value) => Literal(value)
    case Parameter(reference) => Parameter(reference)
    case Unary(op, inner) => Unary(op, TransformExpr(t, inner))
    case Binary(op, left, right) => Binary(op, TransformExpr(t, left), TransformExpr(t, right))
    case Function(c) => Function(TransformCall(t, c))
    case Cast(inner, dataType) => Cast(TransformExpr(t, inner), dataType)
    case IsNull(inner, negated) => IsNull(TransformExpr(t, inner), negated)
    case UnsupportedExpr(description) => UnsupportedExpr(description)
  }

  function TransformCall(t: Transformer, c: FunctionCall): (r: FunctionCall)
    ensures Neutral(t) || (t.Overriding? && ObeysCall(t.overrides, c)) ==> r == c
    ensures t.Overriding? ==> ObeysCall(t.overrides, r)
    decreases c, 1
  {
    FunctionCall(c.function_, TransformExprs(t, c.args), c.distinct, TransformOption(t, c.filter),
                 TransformWindow(t, c.over))
  }

  function ApplySelectionOverrides(q: Query, overrides: Overrides): Query {
    TransformQuery(Overriding(overrides), q)
  }
}
