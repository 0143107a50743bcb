/** The counts of a syntax tree, node by node, and the proof that they are those of the labelled tree. */
module SyntaxProfiles {
  import opened Wrappers
  import opened QuerySyntax
  import opened SyntaxTrees

  // ---------- the shape of a tree ----------

  /**
   True structural counts: nodes, levels (a leaf has one, nothing has none), joins, CTEs, and those
   CTEs that are declared directly by another CTE's query.
   */
  datatype Profile = Profile(nodes: nat, levels: nat, joins: nat, ctes: nat, nested: nat)

  const NONE := Profile(0, 0, 0, 0, 0)
  const LEAF := Profile(1, 1, 0, 0, 0)
  const JOIN := Profile(1, 1, 1, 0, 0)

  function Max(a: int, b: int): int {
    if a >= b then a else b
  }

  predicate Bounded(p: Profile) {
    p.levels <= p.nodes && p.nested <= p.ctes
  }

  predicate NonEmpty(p: Profile) {
    1 <= p.levels && Bounded(p)
  }

  function Beside(a: Profile, b: Profile): Profile {
    Profile(a.nodes + b.nodes, Max(a.levels, b.levels), a.joins + b.joins, a.ctes + b.ctes, a.nested + b.nested)
  }

  function Beside5(a: Profile, b: Profile, c: Profile, d: Profile, e: Profile): (p: Profile)
    ensures Bounded(a) && Bounded(b) && Bounded(c) && Bounded(d) && Bounded(e) ==> Bounded(p)
    ensures b.levels <= p.levels
  {
    Beside(a, Beside(b, Beside(c, Beside(d, e))))
  }

  /** A node over the given children. */
  function Over(children: Profile): Profile {
    Profile(1 + children.nodes, 1 + children.levels, children.joins, children.ctes, children.nested)
  }

  /** A query: its own CTE declarations count, and it keeps them apart from nested ones. */
  function OfQuery(q: Query): (p: Profile)
    ensures NonEmpty(p) && p.nested + |q.ctes| <= p.ctes
    decreases q, 1
  {
    Beside(Over(OfParts(q)), Profile(0, 0, 0, |q.ctes|, 0))
  }

  function OfParts(q: Query): (p: Profile)
    ensures NonEmpty(p)
    decreases q, 0
  {
    Beside5(OfCtes(q.ctes), OfSetExpr(q.body), OfOrderBys(q.orderBy), OfOption(q.limit), OfOption(q.offset))
  }

  function OfCtes(ctes: seq<Cte>): (p: Profile)
    ensures Bounded(p)
    decreases ctes, 0
  {
    if ctes == [] then NONE else Beside(OfCte(ctes[0]), OfCtes(ctes[1..]))
  }

  function OfCte(c: Cte): (p: Profile)
    ensures NonEmpty(p)
    decreases c, 1
  {
    Beside(Over(OfQuery(c.query)), Profile(0, 0, 0, 0, |c.query.ctes|))
  }

  function OfSetExpr(e: SetExpr): (p: Profile)
    ensures NonEmpty(p)
    decreases e, 1
  {
    match e
    case SelectBody(s) => OfSelect(s)
    case UnionAll(left, right, _) => Over(Beside(OfSetExpr(left), OfSetExpr(right)))
    case UnsupportedSet(_, _) => LEAF
  }

  function OfSelect(s: Select): (p: Profile)
    ensures NonEmpty(p)
    decreases s, 1
  {
    Beside(LEAF, OfClauses(s))
  }

  function OfClauses(s: Select): (p: Profile)
    ensures Bounded(p)
    decreases s, 0
  {
    Beside5(OfItems(s.projection), OfTables(s.from), OfOption(s.selection), OfExprs(s.groupBy), OfOption(s.having))
  }

  function OfItems(items: seq<ProjectionItem>): (p: Profile)
    ensures Bounded(p)
    decreases items, 0
  {
    if items == [] then NONE
    else Beside(OfItem(items[0]), OfItems(items[1..]))
  }

  function OfItem(item: ProjectionItem): (p: Profile)
    ensures NonEmpty(p)
    decreases item, 1
  {
    if item.ProjectionExpr? then Beside(LEAF, OfExpr(item.expr)) else LEAF
  }

  function OfTables(tables: seq<TableWithJoins>): (p: Profile)
    ensures Bounded(p)
    decreases tables, 0
  {
    if tables == [] then NONE else Beside(OfTable(tables[0]), OfTables(tables[1..]))
  }

  function OfTable(t: TableWithJoins): (p: Profile)
    ensures NonEmpty(p)
    decreases t, 1
  {
    Beside(OfRelation(t.relation), OfJoins(t.joins))
  }

  function OfJoins(joins: seq<Join>): (p: Profile)
    ensures Bounded(p)
    decreases joins, 0
  {
    if joins == [] then NONE else Beside(OfJoin(joins[0]), OfJoins(joins[1..]))
  }

  function OfJoin(j: Join): (p: Profile)
    ensures NonEmpty(p)
    decreases j, 1
  {
    Beside(JOIN, Beside(OfRelation(j.relation), OfOption(j.on)))
  }

  function OfRelation(r: Relation): (p: Profile)
    ensures NonEmpty(p)
    decreases r, 1
  {
    match r
    case Derived(query, _, _) => Over(OfQuery(query))
    case NestedJoin(table, _, _) => Over(OfTable(table))
    case _ => LEAF
  }

  /** ORDER BY entries of a query count as nodes of their own. */
  function OfOrderBys(os: seq<OrderBy>): (p: Profile)
    ensures Bounded(p)
    decreases os, 0
  {
    if os == [] then NONE else Beside(Beside(LEAF, OfOrderBy(os[0])), OfOrderBys(os[1..]))
  }

  function OfOrderBy(o: OrderBy): (p: Profile)
    ensures NonEmpty(p)
    decreases o, 1
  {
    OfExpr(o.expr)
  }

  /** ORDER BY entries of a window do not. */
  function OfWindowOrder(os: seq<OrderBy>): (p: Profile)
    ensures Bounded(p)
    decreases os, 0
  {
    if os == [] then NONE else Beside(OfOrderBy(os[0]), OfWindowOrder(os[1..]))
  }

  function OfWindow(w: Option<WindowSpec>): (p: Profile)
    ensures Bounded(p)
    decreases w, 0
  {
    match w
    case None => NONE
    case Some(window) => Beside(OfExprs(window.partitionBy), OfWindowOrder(window.orderBy))
  }

  function OfOption(e: Option<Expr>): (p: Profile)
    ensures Bounded(p)
    decreases e, 0
  {
    match e
    case None => NONE
    case Some(expr) => OfExpr(expr)
  }

  function OfExprs(es: seq<Expr>): (p: Profile)
    ensures Bounded(p)
    decreases es, 0
  {
    if es == [] then NONE else Beside(OfExpr(es[0]), OfExprs(es[1..]))
  }

  function OfWhenThens(ws: seq<WhenThen>): (p: Profile)
    ensures Bounded(p)
    decreases ws, 0
  {
    if ws == [] then NONE else Beside(OfWhenThen(ws[0]), OfWhenThens(ws[1..]))
  }

  function OfWhenThen(w: WhenThen): (p: Profile)
    ensures NonEmpty(p)
    decreases w, 1
  {
    Beside(OfExpr(w.condition), OfExpr(w.result))
  }

  function OfExpr(e: Expr): (p: Profile)
    ensures NonEmpty(p)
    decreases e, 1
  {
    Over(OfKind(e.kind))
  }

  /** What an expression holds directly. */
  function OfKind(kind: ExprKind): (p: Profile)
    ensures Bounded(p)
    decreases kind, 1
  {
    match kind
    case Unary(_, inner) => OfExpr(inner)
    case IsNull(inner, _) => OfExpr(inner)
    case Cast(inner, _) => OfExpr(inner)
    case Binary(_, left, right) => Beside(OfExpr(left), OfExpr(right))
    case Function(c) => OfCall(c)
    case Case(operand, whenThen, elseResult) =>
      Beside(OfOption(operand), Beside(OfWhenThens(whenThen), OfOption(elseResult)))
    case Between(inner, low, high, _) => Beside(OfExpr(inner), Beside(OfExpr(low), OfExpr(high)))
    case InList(inner, list, _) => Beside(OfExpr(inner), OfExprs(list))
    case InSubquery(inner, subquery, _) => Beside(OfExpr(inner), OfQuery(subquery))
    case ScalarSubquery(query) => OfQuery(query)
    case Exists(query) => OfQuery(query)
    case Like(inner, pattern, _, _) => Beside(OfExpr(inner), OfExpr(pattern))
    case Tuple(items) => OfExprs(items)
    case Array(items) => OfExprs(items)
    case _ => NONE
  }

  function OfCall(c: FunctionCall): (p: Profile)
    ensures Bounded(p)
    decreases c, 1
  {
    Beside(OfExprs(c.args), Beside(OfOption(c.filter), OfWindow(c.over)))
  }

  // ---------- the same counts of the labelled tree ----------

  /** One more than the greatest nesting of a node, or nothing if there is no node. */
  function Levels(t: Tree): nat {
    if Nests(t.kind) then 1 + LevelsAll(t.children)
    else if IsNode(t.kind) then Max(1, LevelsAll(t.children))
    else LevelsAll(t.children)
  }

  function LevelsAll(ts: seq<Tree>): nat {
    if |ts| == 0 then 0 else Max(Levels(ts[0]), LevelsAll(ts[1..]))
  }

  lemma {:induction false} LevelsAllIsGreatest(ts: seq<Tree>, i: nat)
    requires i < |ts|
    ensures Levels(ts[i]) <= LevelsAll(ts)
  {
    if i > 0 { LevelsAllIsGreatest(ts[1..], i - 1); }
  }

  lemma {:induction false} LevelsAllIsReached(ts: seq<Tree>) returns (i: nat)
    requires LevelsAll(ts) > 0
    ensures i < |ts| && Levels(ts[i]) == LevelsAll(ts)
  {
    if Levels(ts[0]) == LevelsAll(ts) {
      i := 0;
    } else {
      i := LevelsAllIsReached(ts[1..]);
      i := i + 1;
    }
  }

  lemma {:induction false} NestingIsBelowLevels(t: Tree, path: Path)
    requires LeadsToNode(t, path)
    ensures Nesting(t, path) < Levels(t)
    decreases |path|
  {
    if |path| > 0 {
      NestingIsBelowLevels(t.children[path[0]], path[1..]);
      LevelsAllIsGreatest(t.children, path[0]);
    }
  }

  lemma {:induction false} DeepestNode(t: Tree) returns (path: Path)
    requires Levels(t) > 0
    ensures LeadsToNode(t, path) && Nesting(t, path) == Levels(t) - 1
    decreases t
  {
    if LevelsAll(t.children) == 0 || (IsNode(t.kind) && !Nests(t.kind) && LevelsAll(t.children) <= 1) {
      path := [];
    } else {
      var i := LevelsAllIsReached(t.children);
      var rest := DeepestNode(t.children[i]);
      path := [i] + rest;
      assert path[1..] == rest;
    }
  }

  lemma LevelsIsDepth(t: Tree)
    requires Levels(t) > 0
    ensures IsDepth(t, Levels(t) - 1)
  {
    var path := DeepestNode(t);
    forall other | LeadsToNode(t, other) ensures Nesting(t, other) <= Levels(t) - 1 {
      NestingIsBelowLevels(t, other);
    }
  }

  function ProfileOf(t: Tree): Profile {
    Profile(Count(t, IS_NODE), Levels(t), Count(t, IS_JOIN), Count(t, IS_CTE), CountNested(t))
  }

  function ProfileOfAll(ts: seq<Tree>): Profile {
    Profile(CountAll(ts, IS_NODE), LevelsAll(ts), CountAll(ts, IS_JOIN), CountAll(ts, IS_CTE), CountNestedAll(ts))
  }

  lemma OneTree(t: Tree)
    ensures ProfileOfAll([t]) == ProfileOf(t)
  {
    hide Count, CountNested, Levels, IS_NODE, IS_JOIN, IS_CTE;
    NoTrees();
    var ts := [t];
    assert ts[0] == t && ts[1..] == [] && |ts| == 1;
    assert forall wanted :: CountAll(ts, wanted) == Count(ts[0], wanted) + CountAll(ts[1..], wanted);
  }

  lemma {:induction false} CountBoth(a: seq<Tree>, b: seq<Tree>, wanted: Label -> bool)
    ensures CountAll(a + b, wanted) == CountAll(a, wanted) + CountAll(b, wanted)
  {
    hide Count;
    if |a| == 0 {
      assert a + b == b;
    } else {
      CountBoth(a[1..], b, wanted);
      assert (a + b)[0] == a[0] && (a + b)[1..] == a[1..] + b;
    }
  }

  lemma {:induction false} CountNestedBoth(a: seq<Tree>, b: seq<Tree>)
    ensures CountNestedAll(a + b) == CountNestedAll(a) + CountNestedAll(b)
  {
    hide CountNested;
    if |a| == 0 {
      assert a + b == b;
    } else {
      CountNestedBoth(a[1..], b);
      assert (a + b)[0] == a[0] && (a + b)[1..] == a[1..] + b;
    }
  }

  lemma {:induction false} LevelsBoth(a: seq<Tree>, b: seq<Tree>)
    ensures LevelsAll(a + b) == Max(LevelsAll(a), LevelsAll(b))
  {
    hide Levels;
    if |a| == 0 {
      assert a + b == b;
    } else {
      LevelsBoth(a[1..], b);
      assert (a + b)[0] == a[0] && (a + b)[1..] == a[1..] + b;
    }
  }

  lemma BothForests(a: seq<Tree>, b: seq<Tree>)
    ensures ProfileOfAll(a + b) == Beside(ProfileOfAll(a), ProfileOfAll(b))
  {
    hide CountAll, CountNestedAll, LevelsAll, IS_NODE, IS_JOIN, IS_CTE;
    CountBoth(a, b, IS_NODE);
    CountBoth(a, b, IS_JOIN);
    CountBoth(a, b, IS_CTE);
    CountNestedBoth(a, b);
    LevelsBoth(a, b);
  }

  lemma TreeFirst(t: Tree, rest: seq<Tree>)
    ensures ProfileOfAll([t] + rest) == Beside(ProfileOf(t), ProfileOfAll(rest))
  {
    BothForests([t], rest);
    OneTree(t);
  }

  /** A node that holds no CTE: one more level if it nests, and one more join if it is one. */
  lemma NodeOver(kind: Label, children: seq<Tree>)
    requires !kind.CteNode?
    ensures var p, below := ProfileOf(Tree(kind, children)), ProfileOfAll(children);
            p == if Nests(kind) then Over(below)
                 else if kind.JoinNode? then Beside(JOIN, below)
                 else if IsNode(kind) then Beside(LEAF, below)
                 else below
  {
    hide CountAll, CountNestedAll, LevelsAll;
  }

  lemma CteOver(q: Query)
    ensures ProfileOf(Tree(CteNode, [TreeOfQuery(q)]))
         == Beside(Over(ProfileOf(TreeOfQuery(q))), Profile(0, 0, 0, 1, |q.ctes|))
  {
    hide TreeOfQuery, CountAll, CountNestedAll, LevelsAll;
    OneTree(TreeOfQuery(q));
    DeclaredByQuery(q);
  }

  lemma {:induction false} CtesAmongBoth(a: seq<Tree>, b: seq<Tree>)
    ensures CtesAmong(a + b) == CtesAmong(a) + CtesAmong(b)
  {
    if |a| == 0 {
      assert a + b == b;
    } else {
      CtesAmongBoth(a[1..], b);
      assert (a + b)[0] == a[0] && (a + b)[1..] == a[1..] + b;
    }
  }

  lemma {:induction false} CtesAmongCtes(ctes: seq<Cte>)
    ensures CtesAmong(TreesOfCtes(ctes)) == |ctes|
  {
    if ctes != [] {
      CtesAmongCtes(ctes[1..]);
      CtesAmongBoth([TreeOfCte(ctes[0])], TreesOfCtes(ctes[1..]));
    }
  }

  lemma {:induction false} NoCtesAmongOrderBys(os: seq<OrderBy>)
    ensures CtesAmong(TreesOfOrderBys(os)) == 0
  {
    if os != [] {
      NoCtesAmongOrderBys(os[1..]);
      CtesAmongBoth([TreeOfOrderBy(os[0])], TreesOfOrderBys(os[1..]));
    }
  }

  lemma DeclaredByQuery(q: Query)
    ensures DeclaredIn([TreeOfQuery(q)]) == |q.ctes|
  {
    hide TreesOfCtes, TreesOfOrderBys;
    var limits := TreesOfOption(q.limit) + TreesOfOption(q.offset);
    var rest := TreesOfOrderBys(q.orderBy) + limits;
    assert CtesAmong(TreesOfOption(q.limit)) == CtesAmong(TreesOfOption(q.offset)) == 0;
    CtesAmongBoth(TreesOfOption(q.limit), TreesOfOption(q.offset));
    CtesAmongBoth(TreesOfOrderBys(q.orderBy), limits);
    CtesAmongBoth([TreeOfSetExpr(q.body)], rest);
    CtesAmongBoth(TreesOfCtes(q.ctes), [TreeOfSetExpr(q.body)] + rest);
    CtesAmongCtes(q.ctes);
    NoCtesAmongOrderBys(q.orderBy);
    var t := TreeOfQuery(q);
    assert CtesAmong([TreeOfSetExpr(q.body)]) == 0 by {
      assert [TreeOfSetExpr(q.body)][1..] == [];
    }
    assert t.children == TreesOfCtes(q.ctes) + ([TreeOfSetExpr(q.body)] + rest);
    assert CtesAmong(t.children) == |q.ctes|;
    assert [t][1..] == [] && DeclaredIn([]) == 0;
    assert DeclaredIn([t]) == CtesAmong([t][0].children) + DeclaredIn([t][1..]);
  }

  // ---------- node by node ----------

  lemma {:induction false} QueryCounts(q: Query)
    ensures ProfileOf(TreeOfQuery(q)) == OfQuery(q)
    decreases q, 1
  {
    hide ProfileOf, ProfileOfAll, TreesOfCtes, TreeOfSetExpr, TreesOfOrderBys, TreesOfOption;
    hide OfCtes, OfSetExpr, OfOrderBys, OfOption;
    var ctes, body, orders := TreesOfCtes(q.ctes), TreeOfSetExpr(q.body), TreesOfOrderBys(q.orderBy);
    var limit, offset := TreesOfOption(q.limit), TreesOfOption(q.offset);
    CtesCount(q.ctes);
    SetExprCounts(q.body);
    OrderBysCount(q.orderBy);
    OptionCounts(q.limit);
    OptionCounts(q.offset);
    BothForests(limit, offset);
    BothForests(orders, limit + offset);
    TreeFirst(body, orders + (limit + offset));
    BothForests(ctes, [body] + (orders + (limit + offset)));
    NodeOver(QueryNode, ctes + ([body] + (orders + (limit + offset))));
  }

  lemma {:induction false} CtesCount(ctes: seq<Cte>)
    ensures ProfileOfAll(TreesOfCtes(ctes)) == Beside(OfCtes(ctes), Profile(0, 0, 0, |ctes|, 0))
    decreases ctes, 0
  {
    hide ProfileOf, ProfileOfAll, TreeOfCte, OfCte, Bounded, NonEmpty, Beside;
    NoTrees();
    PlusNothing(NONE);
    if ctes != [] {
      CteCounts(ctes[0]);
      CtesCount(ctes[1..]);
      TreeFirst(TreeOfCte(ctes[0]), TreesOfCtes(ctes[1..]));
      OneMoreCte(OfCte(ctes[0]), OfCtes(ctes[1..]), |ctes| - 1);
    }
  }

  lemma PlusNothing(p: Profile)
    ensures Beside(p, Profile(0, 0, 0, 0, 0)) == p
  {
  }

  lemma OneMoreCte(a: Profile, b: Profile, n: nat)
    ensures Beside(Beside(a, Profile(0, 0, 0, 1, 0)), Beside(b, Profile(0, 0, 0, n, 0)))
         == Beside(Beside(a, b), Profile(0, 0, 0, n + 1, 0))
  {
  }

  lemma {:induction false} CteCounts(c: Cte)
    ensures ProfileOf(TreeOfCte(c)) == Beside(OfCte(c), Profile(0, 0, 0, 1, 0))
    decreases c, 1
  {
    hide ProfileOf, TreeOfQuery, OfQuery;
    QueryCounts(c.query);
    CteOver(c.query);
  }

  lemma {:induction false} SetExprCounts(e: SetExpr)
    ensures ProfileOf(TreeOfSetExpr(e)) == OfSetExpr(e)
    decreases e, 1
  {
    hide ProfileOf, ProfileOfAll, TreeOfSelect, OfSelect;
    match e
    case SelectBody(s) => SelectCounts(s);
    case UnionAll(left, right, _) =>
      SetExprCounts(left);
      SetExprCounts(right);
      TwoTrees(TreeOfSetExpr(left), TreeOfSetExpr(right));
      NodeOver(UnionNode, [TreeOfSetExpr(left), TreeOfSetExpr(right)]);
    case UnsupportedSet(_, _) => LeafCounts(UnsupportedSetNode);
  }

  lemma NoTrees()
    ensures ProfileOfAll([]) == NONE
  {
  }

  lemma LeafCounts(kind: Label)
    requires IsNode(kind) && !Nests(kind) && !kind.JoinNode?
    ensures ProfileOf(Tree(kind, [])) == LEAF
  {
    hide Count, CountNested, Levels, ProfileOf, ProfileOfAll;
    NoTrees();
    NodeOver(kind, []);
  }

  lemma TwoTrees(a: Tree, b: Tree)
    ensures ProfileOfAll([a, b]) == Beside(ProfileOf(a), ProfileOf(b))
  {
    hide ProfileOf, ProfileOfAll;
    TreeFirst(a, [b]);
    OneTree(b);
    assert [a] + [b] == [a, b];
  }

  lemma {:induction false} SelectCounts(s: Select)
    ensures ProfileOf(TreeOfSelect(s)) == OfSelect(s)
    decreases s, 1
  {
    hide ProfileOf, ProfileOfAll, TreesOfItems, TreesOfTables, TreesOfOption, TreesOfExprs;
    hide OfItems, OfTables, OfOption, OfExprs;
    var items, tables, selection := TreesOfItems(s.projection), TreesOfTables(s.from), TreesOfOption(s.selection);
    var groups, having := TreesOfExprs(s.groupBy), TreesOfOption(s.having);
    ItemsCount(s.projection);
    TablesCount(s.from);
    OptionCounts(s.selection);
    ExprsCount(s.groupBy);
    OptionCounts(s.having);
    BothForests(groups, having);
    BothForests(selection, groups + having);
    BothForests(tables, selection + (groups + having));
    BothForests(items, tables + (selection + (groups + having)));
    NodeOver(SelectNode, items + (tables + (selection + (groups + having))));
  }

  lemma {:induction false} ItemsCount(items: seq<ProjectionItem>)
    ensures ProfileOfAll(TreesOfItems(items)) == OfItems(items)
    decreases items, 0
  {
    hide ProfileOf, TreeOfItem, OfItem;
    if items != [] {
      ItemCounts(items[0]);
      ItemsCount(items[1..]);
      TreeFirst(TreeOfItem(items[0]), TreesOfItems(items[1..]));
    }
  }

  lemma {:induction false} ItemCounts(item: ProjectionItem)
    ensures ProfileOf(TreeOfItem(item)) == OfItem(item)
    decreases item, 1
  {
    hide ProfileOf, ProfileOfAll, TreeOfExpr, OfExpr;
    if item.ProjectionExpr? {
      ExprCounts(item.expr);
      OneTree(TreeOfExpr(item.expr));
      NodeOver(ItemNode, [TreeOfExpr(item.expr)]);
    } else {
      LeafCounts(ItemNode);
    }
  }

  lemma {:induction false} TablesCount(tables: seq<TableWithJoins>)
    ensures ProfileOfAll(TreesOfTables(tables)) == OfTables(tables)
    decreases tables, 0
  {
    hide ProfileOf, TreeOfTable, OfTable;
    if tables != [] {
      TableCounts(tables[0]);
      TablesCount(tables[1..]);
      TreeFirst(TreeOfTable(tables[0]), TreesOfTables(tables[1..]));
    }
  }

  lemma {:induction false} TableCounts(t: TableWithJoins)
    ensures ProfileOf(TreeOfTable(t)) == OfTable(t)
    decreases t, 1
  {
    hide ProfileOf, ProfileOfAll, TreeOfRelation, TreesOfJoins, OfRelation, OfJoins;
    RelationCounts(t.relation);
    JoinsCount(t.joins);
    TreeFirst(TreeOfRelation(t.relation), TreesOfJoins(t.joins));
    NodeOver(TableWithJoinsGroup, [TreeOfRelation(t.relation)] + TreesOfJoins(t.joins));
  }

  lemma {:induction false} JoinsCount(joins: seq<Join>)
    ensures ProfileOfAll(TreesOfJoins(joins)) == OfJoins(joins)
    decreases joins, 0
  {
    hide ProfileOf, TreeOfJoin, OfJoin;
    if joins != [] {
      JoinCounts(joins[0]);
      JoinsCount(joins[1..]);
      TreeFirst(TreeOfJoin(joins[0]), TreesOfJoins(joins[1..]));
    }
  }

  lemma {:induction false} JoinCounts(j: Join)
    ensures ProfileOf(TreeOfJoin(j)) == OfJoin(j)
    decreases j, 1
  {
    hide ProfileOf, ProfileOfAll, TreeOfRelation, TreesOfOption, OfRelation, OfOption;
    RelationCounts(j.relation);
    OptionCounts(j.on);
    TreeFirst(TreeOfRelation(j.relation), TreesOfOption(j.on));
    NodeOver(JoinNode, [TreeOfRelation(j.relation)] + TreesOfOption(j.on));
  }

  lemma {:induction false} RelationCounts(r: Relation)
    ensures ProfileOf(TreeOfRelation(r)) == OfRelation(r)
    decreases r, 1
  {
    hide ProfileOf, ProfileOfAll, TreeOfQuery, TreeOfTable, OfQuery, OfTable;
    match r
    case Table(_, _, _) => LeafCounts(TableNode);
    case Derived(query, _, _) =>
      QueryCounts(query);
      OneTree(TreeOfQuery(query));
      NodeOver(DerivedNode, [TreeOfQuery(query)]);
    case NestedJoin(table, _, _) =>
      TableCounts(table);
      OneTree(TreeOfTable(table));
      NodeOver(NestedJoinNode, [TreeOfTable(table)]);
    case UnsupportedRelation(_, _) => LeafCounts(UnsupportedRelationNode);
  }

  lemma {:induction false} OrderBysCount(os: seq<OrderBy>)
    ensures ProfileOfAll(TreesOfOrderBys(os)) == OfOrderBys(os)
    decreases os, 0
  {
    hide ProfileOf, OfOrderBy, TreeOfExpr;
    if os != [] {
      OrderByCounts(os[0], OrderNode);
      OrderBysCount(os[1..]);
      TreeFirst(TreeOfOrderBy(os[0]), TreesOfOrderBys(os[1..]));
    }
  }

  lemma {:induction false} OrderByCounts(o: OrderBy, kind: Label)
    requires kind == OrderNode || kind == WindowOrderGroup
    ensures ProfileOf(Tree(kind, [TreeOfExpr(o.expr)])) == if kind == OrderNode then Beside(LEAF, OfOrderBy(o)) else OfOrderBy(o)
    decreases o, 1
  {
    hide ProfileOf, ProfileOfAll, TreeOfExpr, OfExpr;
    ExprCounts(o.expr);
    OneTree(TreeOfExpr(o.expr));
    NodeOver(kind, [TreeOfExpr(o.expr)]);
  }

  lemma {:induction false} WindowOrderCounts(os: seq<OrderBy>)
    ensures ProfileOfAll(TreesOfWindowOrder(os)) == OfWindowOrder(os)
    decreases os, 0
  {
    hide ProfileOf, OfOrderBy, TreeOfExpr;
    if os != [] {
      OrderByCounts(os[0], WindowOrderGroup);
      WindowOrderCounts(os[1..]);
      TreeFirst(TreeOfWindowOrder(os[0]), TreesOfWindowOrder(os[1..]));
    }
  }

  lemma {:induction false} WindowCounts(w: Option<WindowSpec>)
    ensures ProfileOfAll(TreesOfWindow(w)) == OfWindow(w)
    decreases w, 0
  {
    hide ProfileOf, ProfileOfAll, TreesOfExprs, TreesOfWindowOrder, OfExprs, OfWindowOrder;
    NoTrees();
    if w.Some? {
      var children := TreesOfExprs(w.value.partitionBy) + TreesOfWindowOrder(w.value.orderBy);
      ExprsCount(w.value.partitionBy);
      WindowOrderCounts(w.value.orderBy);
      BothForests(TreesOfExprs(w.value.partitionBy), TreesOfWindowOrder(w.value.orderBy));
      NodeOver(WindowGroup, children);
      OneTree(Tree(WindowGroup, children));
    }
  }

  lemma {:induction false} OptionCounts(e: Option<Expr>)
    ensures ProfileOfAll(TreesOfOption(e)) == OfOption(e)
    decreases e, 0
  {
    hide ProfileOf, ProfileOfAll, TreeOfExpr, OfExpr;
    NoTrees();
    if e.Some? {
      ExprCounts(e.value);
      OneTree(TreeOfExpr(e.value));
    }
  }

  lemma {:induction false} ExprsCount(es: seq<Expr>)
    ensures ProfileOfAll(TreesOfExprs(es)) == OfExprs(es)
    decreases es, 0
  {
    hide ProfileOf, TreeOfExpr, OfExpr;
    if es != [] {
      ExprCounts(es[0]);
      ExprsCount(es[1..]);
      TreeFirst(TreeOfExpr(es[0]), TreesOfExprs(es[1..]));
    }
  }

  lemma {:induction false} WhenThensCount(ws: seq<WhenThen>)
    ensures ProfileOfAll(TreesOfWhenThens(ws)) == OfWhenThens(ws)
    decreases ws, 0
  {
    hide ProfileOf, TreeOfWhenThen, OfWhenThen;
    if ws != [] {
      WhenThenCounts(ws[0]);
      WhenThensCount(ws[1..]);
      TreeFirst(TreeOfWhenThen(ws[0]), TreesOfWhenThens(ws[1..]));
    }
  }

  lemma {:induction false} WhenThenCounts(w: WhenThen)
    ensures ProfileOf(TreeOfWhenThen(w)) == OfWhenThen(w)
    decreases w, 1
  {
    hide ProfileOf, ProfileOfAll, TreeOfExpr, OfExpr;
    ExprCounts(w.condition);
    ExprCounts(w.result);
    TwoTrees(TreeOfExpr(w.condition), TreeOfExpr(w.result));
    NodeOver(WhenThenGroup, [TreeOfExpr(w.condition), TreeOfExpr(w.result)]);
  }

  lemma {:induction false} ExprCounts(e: Expr)
    ensures ProfileOf(TreeOfExpr(e)) == OfExpr(e)
    decreases e, 1
  {
    hide ProfileOf, ProfileOfAll, TreesOfKind, OfKind;
    KindCounts(e.kind);
    NodeOver(ExprNode, TreesOfKind(e.kind));
  }

  lemma {:induction false} KindCounts(kind: ExprKind)
    ensures ProfileOfAll(TreesOfKind(kind)) == OfKind(kind)
    decreases kind, 1
  {
    hide ProfileOf, ProfileOfAll, TreeOfExpr, TreesOfExprs, TreesOfOption, TreesOfWhenThens, TreeOfQuery, TreesOfWindow;
    hide OfExpr, OfExprs, OfOption, OfWhenThens, OfQuery, OfWindow;
    NoTrees();
    match kind
    case Unary(_, inner) => OneExpr(inner, kind);
    case IsNull(inner, _) => OneExpr(inner, kind);
    case Cast(inner, _) => OneExpr(inner, kind);
    case Binary(_, left, right) => TwoExprs(left, right, kind);
    case Like(_, _, _, _) => TwoExprs(kind.expr, kind.pattern, kind);
    case Function(_) => CallCounts(kind);
    case Case(_, _, _) => CaseCounts(kind);
    case Between(_, _, _, _) => BetweenCounts(kind);
    case InList(inner, list, _) =>
      ExprCounts(inner);
      ExprsCount(list);
      TreeFirst(TreeOfExpr(inner), TreesOfExprs(list));
    case InSubquery(inner, subquery, _) =>
      ExprCounts(inner);
      QueryCounts(subquery);
      TwoTrees(TreeOfExpr(inner), TreeOfQuery(subquery));
    case ScalarSubquery(query) => QueryCounts(query); OneTree(TreeOfQuery(query));
    case Exists(query) => QueryCounts(query); OneTree(TreeOfQuery(query));
    case Tuple(items) => ExprsCount(items);
    case Array(items) => ExprsCount(items);
    case _ =>
  }

  lemma {:induction false} OneExpr(e: Expr, kind: ExprKind)
    requires e < kind
    ensures ProfileOfAll([TreeOfExpr(e)]) == OfExpr(e)
    decreases kind, 0
  {
    hide ProfileOf, ProfileOfAll, TreeOfExpr, OfExpr;
    ExprCounts(e);
    OneTree(TreeOfExpr(e));
  }

  lemma {:induction false} TwoExprs(a: Expr, b: Expr, kind: ExprKind)
    requires a < kind && b < kind
    ensures ProfileOfAll([TreeOfExpr(a), TreeOfExpr(b)]) == Beside(OfExpr(a), OfExpr(b))
    decreases kind, 0
  {
    hide ProfileOf, ProfileOfAll, TreeOfExpr, OfExpr;
    ExprCounts(a);
    ExprCounts(b);
    TwoTrees(TreeOfExpr(a), TreeOfExpr(b));
  }

  lemma {:induction false} CallCounts(kind: ExprKind)
    requires kind.Function?
    ensures ProfileOfAll(TreesOfKind(kind)) == OfKind(kind)
    decreases kind, 0
  {
    hide ProfileOf, ProfileOfAll, TreesOfExprs, TreesOfOption, TreesOfWindow, OfExprs, OfOption, OfWindow;
    var c := kind.call;
    ExprsCount(c.args);
    OptionCounts(c.filter);
    WindowCounts(c.over);
    BothForests(TreesOfOption(c.filter), TreesOfWindow(c.over));
    BothForests(TreesOfExprs(c.args), TreesOfOption(c.filter) + TreesOfWindow(c.over));
  }

  lemma {:induction false} CaseCounts(kind: ExprKind)
    requires kind.Case?
    ensures ProfileOfAll(TreesOfKind(kind)) == OfKind(kind)
    decreases kind, 0
  {
    hide ProfileOf, ProfileOfAll, TreesOfOption, TreesOfWhenThens, OfOption, OfWhenThens;
    OptionCounts(kind.caseOperand);
    WhenThensCount(kind.whenThen);
    OptionCounts(kind.elseResult);
    BothForests(TreesOfWhenThens(kind.whenThen), TreesOfOption(kind.elseResult));
    BothForests(TreesOfOption(kind.caseOperand), TreesOfWhenThens(kind.whenThen) + TreesOfOption(kind.elseResult));
  }

  lemma {:induction false} BetweenCounts(kind: ExprKind)
    requires kind.Between?
    ensures ProfileOfAll(TreesOfKind(kind)) == OfKind(kind)
    decreases kind, 0
  {
    hide ProfileOf, ProfileOfAll, TreeOfExpr, OfExpr;
    ExprCounts(kind.expr);
    ExprCounts(kind.low);
    ExprCounts(kind.high);
    TwoTrees(TreeOfExpr(kind.low), TreeOfExpr(kind.high));
    var low, high := TreeOfExpr(kind.low), TreeOfExpr(kind.high);
    TreeFirst(TreeOfExpr(kind.expr), [low, high]);
    assert [TreeOfExpr(kind.expr)] + [low, high] == TreesOfKind(kind);
  }
}
