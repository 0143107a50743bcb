/** The syntax tree as a tree of labelled nodes, and what can be counted in any such tree. */
module SyntaxTrees {
  import opened Wrappers
  import opened QuerySyntax

  /** What a node stands for; the last four hold other nodes together and are nodes of no query. */
  datatype Label =
    | QueryNode | CteNode | UnionNode | SelectNode | UnsupportedSetNode | ItemNode | OrderNode
    | JoinNode | TableNode | DerivedNode | NestedJoinNode | UnsupportedRelationNode | ExprNode
    | TableWithJoinsGroup | WindowGroup | WindowOrderGroup | WhenThenGroup

  datatype Tree = Tree(kind: Label, children: seq<Tree>)

  predicate IsNode(l: Label) {
    !l.TableWithJoinsGroup? && !l.WindowGroup? && !l.WindowOrderGroup? && !l.WhenThenGroup?
  }

  /** What is inside such a node is nested one level deeper than the node. */
  predicate Nests(l: Label) {
    l == QueryNode || l == CteNode || l == UnionNode || l == DerivedNode || l == NestedJoinNode || l == ExprNode
  }

  // ---------- counting in any tree ----------

  const IS_JOIN: Label -> bool := (l: Label) => l.JoinNode?
  const IS_CTE: Label -> bool := (l: Label) => l.CteNode?
  const IS_NODE: Label -> bool := (l: Label) => IsNode(l)

  /** The number of nodes of some kind. */
  function Count(t: Tree, wanted: Label -> bool): nat {
    (if wanted(t.kind) then 1 else 0) + CountAll(t.children, wanted)
  }

  function CountAll(ts: seq<Tree>, wanted: Label -> bool): nat {
    if |ts| == 0 then 0 else Count(ts[0], wanted) + CountAll(ts[1..], wanted)
  }

  /** The CTEs that the query of a CTE declares itself, over all CTEs. */
  function CountNested(t: Tree): nat {
    (if t.kind.CteNode? then DeclaredIn(t.children) else 0) + CountNestedAll(t.children)
  }

  function CountNestedAll(ts: seq<Tree>): nat {
    if |ts| == 0 then 0 else CountNested(ts[0]) + CountNestedAll(ts[1..])
  }

  /** The CTEs right below these trees. */
  function DeclaredIn(ts: seq<Tree>): nat {
    if |ts| == 0 then 0 else CtesAmong(ts[0].children) + DeclaredIn(ts[1..])
  }

  function CtesAmong(ts: seq<Tree>): nat {
    if |ts| == 0 then 0 else (if ts[0].kind.CteNode? then 1 else 0) + CtesAmong(ts[1..])
  }

  /** The way to a node: which child to take at each step. */
  type Path = seq<nat>

  predicate LeadsToNode(t: Tree, path: Path)
    decreases t
  {
    if |path| == 0 then IsNode(t.kind)
    else path[0] < |t.children| && LeadsToNode(t.children[path[0]], path[1..])
  }

  /** How many of the nodes on the way there, the last one apart, nest what is inside them. */
  function Nesting(t: Tree, path: Path): nat
    decreases t
  {
    if |path| == 0 then 0
    else
      (if Nests(t.kind) then 1 else 0) +
      (if path[0] < |t.children| then Nesting(t.children[path[0]], path[1..]) else 0)
  }

  /** The greatest nesting of any node. */
  ghost predicate IsDepth(t: Tree, depth: nat) {
    (exists path :: LeadsToNode(t, path) && Nesting(t, path) == depth) &&
    forall path :: LeadsToNode(t, path) ==> Nesting(t, path) <= depth
  }

  // ---------- the tree of a query ----------

  function TreeOfQuery(q: Query): Tree
    decreases q, 1
  {
    Tree(QueryNode,
         TreesOfCtes(q.ctes) + ([TreeOfSetExpr(q.body)] +
           (TreesOfOrderBys(q.orderBy) + (TreesOfOption(q.limit) + TreesOfOption(q.offset)))))
  }

  function TreesOfCtes(ctes: seq<Cte>): seq<Tree>
    decreases ctes, 0
  {
    if ctes == [] then [] else [TreeOfCte(ctes[0])] + TreesOfCtes(ctes[1..])
  }

  function TreeOfCte(c: Cte): Tree
    decreases c, 1
  {
    Tree(CteNode, [TreeOfQuery(c.query)])
  }

  function TreeOfSetExpr(e: SetExpr): Tree
    decreases e, 1
  {
    match e
    case SelectBody(s) => TreeOfSelect(s)
    case UnionAll(left, right, _) => Tree(UnionNode, [TreeOfSetExpr(left), TreeOfSetExpr(right)])
    case UnsupportedSet(_, _) => Tree(UnsupportedSetNode, [])
  }

  function TreeOfSelect(s: Select): Tree
    decreases s, 1
  {
    Tree(SelectNode,
         TreesOfItems(s.projection) + (TreesOfTables(s.from) +
           (TreesOfOption(s.selection) + (TreesOfExprs(s.groupBy) + TreesOfOption(s.having)))))
  }

  function TreesOfItems(items: seq<ProjectionItem>): seq<Tree>
    decreases items, 0
  {
    if items == [] then [] else [TreeOfItem(items[0])] + TreesOfItems(items[1..])
  }

  function TreeOfItem(item: ProjectionItem): Tree
    decreases item, 1
  {
    Tree(ItemNode, if item.ProjectionExpr? then [TreeOfExpr(item.expr)] else [])
  }

  function TreesOfTables(tables: seq<TableWithJoins>): seq<Tree>
    decreases tables, 0
  {
    if tables == [] then [] else [TreeOfTable(tables[0])] + TreesOfTables(tables[1..])
  }

  function TreeOfTable(t: TableWithJoins): Tree
    decreases t, 1
  {
    Tree(TableWithJoinsGroup, [TreeOfRelation(t.relation)] + TreesOfJoins(t.joins))
  }

  function TreesOfJoins(joins: seq<Join>): seq<Tree>
    decreases joins, 0
  {
    if joins == [] then [] else [TreeOfJoin(joins[0])] + TreesOfJoins(joins[1..])
  }

  function TreeOfJoin(j: Join): Tree
    decreases j, 1
  {
    Tree(JoinNode, [TreeOfRelation(j.relation)] + TreesOfOption(j.on))
  }

  function TreeOfRelation(r: Relation): Tree
    decreases r, 1
  {
    match r
    case Table(_, _, _) => Tree(TableNode, [])
    case Derived(query, _, _) => Tree(DerivedNode, [TreeOfQuery(query)])
    case NestedJoin(table, _, _) => Tree(NestedJoinNode, [TreeOfTable(table)])
    case UnsupportedRelation(_, _) => Tree(UnsupportedRelationNode, [])
  }

  function TreesOfOrderBys(os: seq<OrderBy>): seq<Tree>
    decreases os, 0
  {
    if os == [] then [] else [TreeOfOrderBy(os[0])] + TreesOfOrderBys(os[1..])
  }

  function TreeOfOrderBy(o: OrderBy): Tree
    decreases o, 1
  {
    Tree(OrderNode, [TreeOfExpr(o.expr)])
  }

  function TreesOfWindowOrder(os: seq<OrderBy>): seq<Tree>
    decreases os, 0
  {
    if os == [] then [] else [TreeOfWindowOrder(os[0])] + TreesOfWindowOrder(os[1..])
  }

  function TreeOfWindowOrder(o: OrderBy): Tree
    decreases o, 1
  {
    Tree(WindowOrderGroup, [TreeOfExpr(o.expr)])
  }

  function TreesOfOption(e: Option<Expr>): seq<Tree>
    decreases e, 0
  {
    match e
    case None => []
    case Some(expr) => [TreeOfExpr(expr)]
  }

  function TreesOfExprs(es: seq<Expr>): seq<Tree>
    decreases es, 0
  {
    if es == [] then [] else [TreeOfExpr(es[0])] + TreesOfExprs(es[1..])
  }

  function TreesOfWhenThens(ws: seq<WhenThen>): seq<Tree>
    decreases ws, 0
  {
    if ws == [] then [] else [TreeOfWhenThen(ws[0])] + TreesOfWhenThens(ws[1..])
  }

  function TreeOfWhenThen(w: WhenThen): Tree
    decreases w, 1
  {
    Tree(WhenThenGroup, [TreeOfExpr(w.condition), TreeOfExpr(w.result)])
  }

  function TreesOfWindow(w: Option<WindowSpec>): seq<Tree>
    decreases w, 0
  {
    match w
    case None => []
    case Some(window) => [Tree(WindowGroup, TreesOfExprs(window.partitionBy) + TreesOfWindowOrder(window.orderBy))]
  }

  function TreeOfExpr(e: Expr): Tree
    decreases e, 1
  {
    Tree(ExprNode, TreesOfKind(e.kind))
  }

  function TreesOfKind(kind: ExprKind): seq<Tree>
    decreases kind, 1
  {
    match kind
    case Column(_, _) => []
    case Literal(_) => []
    case Parameter(_) => []
    case Unary(_, inner) => [TreeOfExpr(inner)]
    case Binary(_, left, right) => [TreeOfExpr(left), TreeOfExpr(right)]
    case Function(c) => TreesOfExprs(c.args) + (TreesOfOption(c.filter) + TreesOfWindow(c.over))
    case Case(operand, whenThen, elseResult) =>
      TreesOfOption(operand) + (TreesOfWhenThens(whenThen) + TreesOfOption(elseResult))
    case Cast(inner, _) => [TreeOfExpr(inner)]
    case Between(inner, low, high, _) => [TreeOfExpr(inner), TreeOfExpr(low), TreeOfExpr(high)]
    case InList(inner, list, _) => [TreeOfExpr(inner)] + TreesOfExprs(list)
    case InSubquery(inner, subquery, _) => [TreeOfExpr(inner), TreeOfQuery(subquery)]
    case ScalarSubquery(query) => [TreeOfQuery(query)]
    case Exists(query) => [TreeOfQuery(query)]
    case Like(inner, pattern, _, _) => [TreeOfExpr(inner), TreeOfExpr(pattern)]
    case IsNull(inner, _) => [TreeOfExpr(inner)]
    case Tuple(items) => TreesOfExprs(items)
    case Array(items) => TreesOfExprs(items)
    case UnsupportedExpr(_) => []
  }
}
