/** The parser-facing SQL syntax tree (ir/src/syntax.rs). */
module QuerySyntax {
  import opened Wrappers

  datatype Span = Span(offset: nat, len: nat)

  datatype Node = Node(span: Option<Span>, nodeId: string)

  datatype NameRef = NameRef(namespace: Option<string>, name: string)

  datatype BackendClause = ClickHouseSettings(text: string, node: Node) | ClickHouseFormat(text: string, node: Node)

  datatype Query = Query(
    node: Node, ctes: seq<Cte>, withRecursive: bool, body: SetExpr, orderBy: seq<OrderBy>,
    limit: Option<Expr>, offset: Option<Expr>, backendClauses: seq<BackendClause>)

  datatype Cte = Cte(name: string, columns: seq<string>, query: Query, node: Node)

  datatype SetExpr =
    | SelectBody(select: Select)
    | UnionAll(left: SetExpr, right: SetExpr, node: Node)
    | UnsupportedSet(description: string, node: Node)

  datatype Select = Select(
    distinct: bool, projection: seq<ProjectionItem>, from: seq<TableWithJoins>, selection: Option<Expr>,
    groupBy: seq<Expr>, having: Option<Expr>, node: Node)

  datatype ProjectionItem =
    | Wildcard(qualifier: Option<string>, node: Node)
    | ProjectionExpr(expr: Expr, alias: Option<string>, node: Node)
    | UnsupportedItem(description: string, node: Node)

  datatype TableWithJoins = TableWithJoins(relation: Relation, joins: seq<Join>, node: Node)

  datatype JoinKind = Inner | Left | Right | Full | Cross

  datatype Join = Join(kind: JoinKind, relation: Relation, on: Option<Expr>, node: Node)

  datatype Relation =
    | Table(name: NameRef, alias: Option<string>, node: Node)
    | Derived(query: Query, alias: Option<string>, node: Node)
    | NestedJoin(table: TableWithJoins, alias: Option<string>, node: Node)
    | UnsupportedRelation(description: string, node: Node)

  datatype OrderBy = OrderBy(expr: Expr, asc: Option<bool>, nullsFirst: Option<bool>, node: Node)

  datatype UnaryOperator = Plus | Minus | Not

  datatype BinaryOperator = Add | Subtract | Multiply | Divide | Eq | NotEq | Lt | LtEq | Gt | GtEq | And | Or

  datatype LiteralValue =
    | NullLiteral | BooleanLiteral(b: bool) | Int64Literal(i: int) | Float64Literal(text: string) | Utf8Literal(s: string)

  datatype WindowSpec = WindowSpec(partitionBy: seq<Expr>, orderBy: seq<OrderBy>, node: Node)

  datatype FunctionCall = FunctionCall(
    function_: string, args: seq<Expr>, distinct: bool, filter: Option<Expr>, over: Option<WindowSpec>)

  datatype WhenThen = WhenThen(condition: Expr, result: Expr)

  datatype Expr = Expr(kind: ExprKind, node: Node)

  datatype ExprKind =
    | Column(relation: Option<string>, name: string)
    | Literal(value: LiteralValue)
    | Parameter(reference: string)
    | Unary(unaryOp: UnaryOperator, operand: Expr)
    | Binary(op: BinaryOperator, left: Expr, right: Expr)
    | Function(call: FunctionCall)
    | Case(caseOperand: Option<Expr>, whenThen: seq<WhenThen>, elseResult: Option<Expr>)
    | Cast(castExpr: Expr, dataType: string)
    | Between(expr: Expr, low: Expr, high: Expr, negated: bool)
    | InList(expr: Expr, list: seq<Expr>, negated: bool)
    | InSubquery(expr: Expr, subquery: Query, negated: bool)
    | ScalarSubquery(query: Query)
    | Exists(query: Query)
    | Like(expr: Expr, pattern: Expr, negated: bool, caseInsensitive: bool)
    | IsNull(expr: Expr, negated: bool)
    | Tuple(items: seq<Expr>)
    | Array(items: seq<Expr>)
    | UnsupportedExpr(description: string)
}
