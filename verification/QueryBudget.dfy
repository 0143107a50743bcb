/** Measuring a syntax tree for budget enforcement, and what the measurements say (ir/src/budget.rs). */
module QueryBudget {
  import opened Wrappers
  import opened QuerySyntax
  import opened SyntaxTrees
  import opened SyntaxProfiles

  // ---------- measuring ----------

  datatype Usage = Usage(inputBytes: nat, parameters: nat, syntaxNodes: nat, nestingDepth: nat, joins: nat, ctes: nat)

  /** `merge`: add the counts and keep the greater depth. */
  function Merge(target: Usage, source: Usage, extraDepth: nat): Usage {
    target.(syntaxNodes := target.syntaxNodes + source.syntaxNodes,
            nestingDepth := Max(target.nestingDepth, source.nestingDepth + extraDepth),
            joins := target.joins + source.joins,
            ctes := target.ctes + source.ctes)
  }

  /** What measuring a tree of this profile from this depth reports: nested CTEs are counted twice. */
  function Reported(p: Profile, depth: nat): Usage
    requires p.levels >= 1
  {
    Usage(0, 0, p.nodes, depth + p.levels - 1, p.joins, p.ctes + p.nested)
  }

  /** The same counts, `k` levels deeper. */
  function Deeper(u: Usage, k: nat): Usage {
    u.(nestingDepth := u.nestingDepth + k)
  }

  /** A usage that has reached the level above `depth`, after merging everything below it of this profile. */
  function Absorb(u: Usage, p: Profile, depth: nat): Usage
    requires u.nestingDepth + 1 >= depth
  {
    Usage(u.inputBytes, u.parameters, u.syntaxNodes + p.nodes, Max(u.nestingDepth, depth + p.levels - 1),
          u.joins + p.joins, u.ctes + p.ctes + p.nested)
  }

  lemma AbsorbPlus(u: Usage, a: Profile, b: Profile, depth: nat)
    requires u.nestingDepth + 1 >= depth
    ensures Absorb(Absorb(u, a, depth), b, depth) == Absorb(u, Beside(a, b), depth)
  {
  }

  lemma Absorb5(u: Usage, a: Profile, b: Profile, c: Profile, d: Profile, e: Profile, depth: nat)
    requires u.nestingDepth + 1 >= depth
    ensures Absorb(Absorb(Absorb(Absorb(Absorb(u, a, depth), b, depth), c, depth), d, depth), e, depth)
         == Absorb(u, Beside5(a, b, c, d, e), depth)
  {
  }

  lemma ReportedPlus(a: Profile, b: Profile, depth: nat)
    requires a.levels >= 1
    ensures Absorb(Reported(a, depth), b, depth) == Reported(Beside(a, b), depth)
  {
  }

  lemma ReportedOver(p: Profile, depth: nat)
    ensures Absorb(Reported(LEAF, depth), p, depth + 1) == Reported(Over(p), depth)
  {
  }

  lemma ReportedDeeper(p: Profile, depth: nat)
    requires p.levels >= 1
    ensures Deeper(Reported(p, 0), depth) == Reported(p, depth)
  {
  }

  lemma ReachesDepth(depth: nat)
    ensures Reported(LEAF, depth).nestingDepth == depth
  {
  }

  /**
   The numbers are those of this tree: its nodes, the nesting of its deepest one, its joins, and its CTEs with
   those counted again that the query of a CTE declares itself.
   */
  ghost predicate Counts(u: Usage, t: Tree) {
    u.inputBytes == 0 && u.parameters == 0 &&
    u.syntaxNodes == Count(t, IS_NODE) && IsDepth(t, u.nestingDepth) && u.joins == Count(t, IS_JOIN) &&
    u.ctes == Count(t, IS_CTE) + CountNested(t)
  }

  lemma ReportedCounts(q: Query)
    ensures Counts(Reported(OfQuery(q), 0), TreeOfQuery(q))
  {
    hide OfQuery, TreeOfQuery, Count, CountNested, Levels, IsDepth;
    QueryCounts(q);
    LevelsIsDepth(TreeOfQuery(q));
  }

  method MeasureQuery(q: Query) returns (u: Usage)
    ensures u == Reported(OfQuery(q), 0)
    ensures Counts(u, TreeOfQuery(q))
    decreases q, 1
  {
    hide OfCtes, OfSetExpr, OfOrderBys, OfOption, Counts, TreeOfQuery;
    ReportedCounts(q);
    u := Usage(0, 0, 1, 0, 0, |q.ctes|);
    u := MergeCtes(u, q.ctes);
    var body := MeasureSetExpr(q.body, 1);
    u := Merge(u, body, 0);
    u := MergeOrderBys(u, q.orderBy);
    u := MergeOption(u, q.limit, 1);
    u := MergeOption(u, q.offset, 1);
    Absorb5(Usage(0, 0, 1, 0, 0, |q.ctes|),
            OfCtes(q.ctes), OfSetExpr(q.body), OfOrderBys(q.orderBy), OfOption(q.limit), OfOption(q.offset), 1);
    assert u == Absorb(Usage(0, 0, 1, 0, 0, |q.ctes|), OfParts(q), 1);
  }

  method MergeCtes(target: Usage, ctes: seq<Cte>) returns (u: Usage)
    ensures u == Absorb(target, OfCtes(ctes), 1)
    decreases ctes, 0
  {
    hide OfCte;
    u := target;
    for i := 0 to |ctes|
      invariant Absorb(u, OfCtes(ctes[i..]), 1) == Absorb(target, OfCtes(ctes), 1)
    {
      assert ctes[i..][1..] == ctes[i + 1..];
      var cte := MeasureCte(ctes[i]);
      u := Merge(u, cte, 1);
    }
  }

  method MeasureCte(c: Cte) returns (u: Usage)
    ensures u == Reported(OfCte(c), 0)
    decreases c, 1
  {
    hide OfQuery;
    u := Usage(0, 0, 1, 0, 0, |c.query.ctes|);
    var query := MeasureQuery(c.query);
    u := Merge(u, query, 1);
  }

  method MergeOrderBys(target: Usage, os: seq<OrderBy>) returns (u: Usage)
    ensures u == Absorb(target, OfOrderBys(os), 1)
    decreases os, 0
  {
    hide OfOrderBy;
    u := target;
    for i := 0 to |os|
      invariant Absorb(u, OfOrderBys(os[i..]), 1) == Absorb(target, OfOrderBys(os), 1)
    {
      assert os[i..][1..] == os[i + 1..];
      u := u.(syntaxNodes := u.syntaxNodes + 1);
      var order := MeasureOrderBy(os[i], 1);
      u := Merge(u, order, 0);
    }
  }

  method MeasureOrderBy(o: OrderBy, depth: nat) returns (u: Usage)
    ensures u == Reported(OfOrderBy(o), depth)
    decreases o, 1
  {
    hide OfExpr;
    u := MeasureExpr(o.expr, depth);
  }

  method MeasureSetExpr(e: SetExpr, depth: nat) returns (u: Usage)
    ensures u == Deeper(Reported(OfSetExpr(e), 0), depth)
    decreases e, 1
  {
    hide OfSelect, Absorb, Reported, Deeper;
    ReportedDeeper(OfSetExpr(e), depth);
    u := Reported(LEAF, depth);
    ReachesDepth(depth);
    match e
    case SelectBody(s) => u := MeasureSelect(s, depth);
    case UnionAll(left, right, _) =>
      u := MergeBranches(u, e, left, right, depth + 1);
      ReportedOver(Beside(OfSetExpr(left), OfSetExpr(right)), depth);
    case UnsupportedSet(_, _) =>
  }

  method MergeBranches(target: Usage, ghost e: SetExpr, left: SetExpr, right: SetExpr, depth: nat) returns (u: Usage)
    requires target.nestingDepth + 1 >= depth && left < e && right < e
    ensures u == Absorb(target, Beside(OfSetExpr(left), OfSetExpr(right)), depth)
    decreases e, 0
  {
    hide OfSetExpr;
    AbsorbPlus(target, OfSetExpr(left), OfSetExpr(right), depth);
    var l := MeasureSetExpr(left, depth);
    u := Merge(target, l, 0);
    var r := MeasureSetExpr(right, depth);
    u := Merge(u, r, 0);
  }

  method MeasureSelect(s: Select, depth: nat) returns (u: Usage)
    ensures u == Reported(OfSelect(s), depth)
    decreases s, 1
  {
    hide OfItems, OfTables, OfOption, OfExprs;
    u := Reported(LEAF, depth);
    u := MergeItems(u, s.projection, depth);
    u := MergeTables(u, s.from, depth);
    u := MergeOption(u, s.selection, depth);
    u := MergeExprs(u, s.groupBy, depth);
    u := MergeOption(u, s.having, depth);
    Absorb5(Reported(LEAF, depth),
            OfItems(s.projection), OfTables(s.from), OfOption(s.selection), OfExprs(s.groupBy), OfOption(s.having), depth);
    assert u == Absorb(Reported(LEAF, depth), OfClauses(s), depth);
    ReportedPlus(LEAF, OfClauses(s), depth);
  }

  method MergeItems(target: Usage, items: seq<ProjectionItem>, depth: nat) returns (u: Usage)
    requires target.nestingDepth >= depth
    ensures u == Absorb(target, OfItems(items), depth)
    decreases items, 0
  {
    hide OfItem;
    u := target;
    for i := 0 to |items|
      invariant u.nestingDepth >= depth
      invariant Absorb(u, OfItems(items[i..]), depth) == Absorb(target, OfItems(items), depth)
    {
      assert items[i..][1..] == items[i + 1..];
      u := MergeItem(u, items[i], depth);
    }
  }

  method MergeItem(target: Usage, item: ProjectionItem, depth: nat) returns (u: Usage)
    requires target.nestingDepth >= depth
    ensures u == Absorb(target, OfItem(item), depth)
    decreases item, 1
  {
    hide OfExpr;
    u := target.(syntaxNodes := target.syntaxNodes + 1);
    if item.ProjectionExpr? {
      var inner := MeasureExpr(item.expr, depth);
      u := Merge(u, inner, 0);
    }
  }

  method MergeTables(target: Usage, tables: seq<TableWithJoins>, depth: nat) returns (u: Usage)
    requires target.nestingDepth + 1 >= depth
    ensures u == Absorb(target, OfTables(tables), depth)
    decreases tables, 0
  {
    hide OfTable;
    u := target;
    for i := 0 to |tables|
      invariant u.nestingDepth + 1 >= depth
      invariant Absorb(u, OfTables(tables[i..]), depth) == Absorb(target, OfTables(tables), depth)
    {
      assert tables[i..][1..] == tables[i + 1..];
      u := MergeTable(u, tables[i], depth);
    }
  }

  method MergeTable(target: Usage, t: TableWithJoins, depth: nat) returns (u: Usage)
    requires target.nestingDepth + 1 >= depth
    ensures u == Absorb(target, OfTable(t), depth)
    decreases t, 2
  {
    hide OfTable;
    var inner := MeasureTable(t, depth);
    u := Merge(target, inner, 0);
  }

  method MeasureTable(t: TableWithJoins, depth: nat) returns (u: Usage)
    ensures u == Reported(OfTable(t), depth)
    decreases t, 1
  {
    hide OfRelation, OfJoins;
    u := MeasureRelation(t.relation, depth);
    u := MergeJoins(u, t.joins, depth);
    ReportedPlus(OfRelation(t.relation), OfJoins(t.joins), depth);
  }

  method MergeJoins(target: Usage, joins: seq<Join>, depth: nat) returns (u: Usage)
    requires target.nestingDepth >= depth
    ensures u == Absorb(target, OfJoins(joins), depth)
    decreases joins, 0
  {
    hide OfJoin;
    u := target;
    for i := 0 to |joins|
      invariant u.nestingDepth >= depth
      invariant Absorb(u, OfJoins(joins[i..]), depth) == Absorb(target, OfJoins(joins), depth)
    {
      assert joins[i..][1..] == joins[i + 1..];
      u := MergeJoin(u, joins[i], depth);
    }
  }

  method MergeJoin(target: Usage, j: Join, depth: nat) returns (u: Usage)
    requires target.nestingDepth >= depth
    ensures u == Absorb(target, OfJoin(j), depth)
    decreases j, 1
  {
    hide OfRelation, OfOption;
    u := target.(joins := target.joins + 1, syntaxNodes := target.syntaxNodes + 1);
    var relation := MeasureRelation(j.relation, depth);
    u := Merge(u, relation, 0);
    u := MergeOption(u, j.on, depth);
  }

  method MeasureRelation(r: Relation, depth: nat) returns (u: Usage)
    ensures u == Deeper(Reported(OfRelation(r), 0), depth)
    decreases r, 1
  {
    hide OfQuery, OfTable, Absorb, Reported, Deeper;
    ReportedDeeper(OfRelation(r), depth);
    u := Reported(LEAF, depth);
    ReachesDepth(depth);
    match r
    case Derived(query, _, _) =>
      u := MergeSubquery(u, query, depth + 1);
      ReportedOver(OfQuery(query), depth);
    case NestedJoin(table, _, _) =>
      u := MergeTable(u, table, depth + 1);
      ReportedOver(OfTable(table), depth);
    case _ =>
  }

  method MergeOption(target: Usage, e: Option<Expr>, depth: nat) returns (u: Usage)
    requires target.nestingDepth + 1 >= depth
    ensures u == Absorb(target, OfOption(e), depth)
    decreases e, 0
  {
    hide OfExpr;
    u := target;
    if e.Some? {
      var inner := MeasureExpr(e.value, depth);
      u := Merge(u, inner, 0);
    }
  }

  method MergeExprs(target: Usage, es: seq<Expr>, depth: nat) returns (u: Usage)
    requires target.nestingDepth + 1 >= depth
    ensures u == Absorb(target, OfExprs(es), depth)
    decreases es, 0
  {
    hide OfExpr;
    u := target;
    for i := 0 to |es|
      invariant u.nestingDepth + 1 >= depth
      invariant Absorb(u, OfExprs(es[i..]), depth) == Absorb(target, OfExprs(es), depth)
    {
      assert es[i..][1..] == es[i + 1..];
      u := MergeExpr(u, es[i], depth);
    }
  }

  method MergeWindowOrder(target: Usage, os: seq<OrderBy>, depth: nat) returns (u: Usage)
    requires target.nestingDepth + 1 >= depth
    ensures u == Absorb(target, OfWindowOrder(os), depth)
    decreases os, 0
  {
    hide OfOrderBy;
    u := target;
    for i := 0 to |os|
      invariant u.nestingDepth + 1 >= depth
      invariant Absorb(u, OfWindowOrder(os[i..]), depth) == Absorb(target, OfWindowOrder(os), depth)
    {
      assert os[i..][1..] == os[i + 1..];
      var item := MeasureOrderBy(os[i], depth);
      u := Merge(u, item, 0);
    }
  }

  method MergeWindow(target: Usage, w: Option<WindowSpec>, depth: nat) returns (u: Usage)
    requires target.nestingDepth + 1 >= depth
    ensures u == Absorb(target, OfWindow(w), depth)
    decreases w, 0
  {
    hide OfExprs, OfWindowOrder;
    u := target;
    if w.Some? {
      u := MergeExprs(u, w.value.partitionBy, depth);
      u := MergeWindowOrder(u, w.value.orderBy, depth);
    }
  }

  method MergeCall(target: Usage, c: FunctionCall, depth: nat) returns (u: Usage)
    requires target.nestingDepth + 1 >= depth
    ensures u == Absorb(target, OfCall(c), depth)
    decreases c, 1
  {
    hide OfExprs, OfOption, OfWindow;
    u := MergeExprs(target, c.args, depth);
    u := MergeOption(u, c.filter, depth);
    u := MergeWindow(u, c.over, depth);
  }

  method MergeWhenThens(target: Usage, ws: seq<WhenThen>, depth: nat) returns (u: Usage)
    requires target.nestingDepth + 1 >= depth
    ensures u == Absorb(target, OfWhenThens(ws), depth)
    decreases ws, 0
  {
    hide OfWhenThen;
    u := target;
    for i := 0 to |ws|
      invariant u.nestingDepth + 1 >= depth
      invariant Absorb(u, OfWhenThens(ws[i..]), depth) == Absorb(target, OfWhenThens(ws), depth)
    {
      assert ws[i..][1..] == ws[i + 1..];
      u := MergeWhenThen(u, ws[i], depth);
    }
  }

  method MergeWhenThen(target: Usage, w: WhenThen, depth: nat) returns (u: Usage)
    requires target.nestingDepth + 1 >= depth
    ensures u == Absorb(target, OfWhenThen(w), depth)
    decreases w, 1
  {
    hide OfExpr;
    u := MergeExpr(target, w.condition, depth);
    u := MergeExpr(u, w.result, depth);
  }

  method MergeCase(target: Usage, kind: ExprKind, depth: nat) returns (u: Usage)
    requires target.nestingDepth + 1 >= depth
    requires kind.Case?
    ensures u == Absorb(target, OfKind(kind), depth)
    decreases kind, 0
  {
    hide OfOption, OfWhenThens;
    u := MergeOption(target, kind.caseOperand, depth);
    u := MergeWhenThens(u, kind.whenThen, depth);
    u := MergeOption(u, kind.elseResult, depth);
  }

  method MeasureExpr(e: Expr, depth: nat) returns (u: Usage)
    ensures u == Deeper(Reported(OfExpr(e), 0), depth)
    decreases e, 1
  {
    hide OfKind, Absorb, Reported, Deeper;
    ReportedDeeper(OfExpr(e), depth);
    ReachesDepth(depth);
    u := MergeKind(Reported(LEAF, depth), e.kind, depth + 1);
    ReportedOver(OfKind(e.kind), depth);
  }

  /** Merges what the expression holds directly, measured from `depth`. */
  method MergeKind(target: Usage, kind: ExprKind, depth: nat) returns (u: Usage)
    requires target.nestingDepth + 1 >= depth
    ensures u == Absorb(target, OfKind(kind), depth)
    decreases kind, 1
  {
    hide OfExpr, OfCall, OfExprs, OfQuery, OfOption, OfWhenThens;
    u := target;
    match kind
    case Unary(_, inner) => u := MergeExpr(u, inner, depth);
    case IsNull(inner, _) => u := MergeExpr(u, inner, depth);
    case Cast(inner, _) => u := MergeExpr(u, inner, depth);
    case Binary(_, _, _) => u := MergePair(u, kind, kind.left, kind.right, depth);
    case Like(_, _, _, _) => u := MergePair(u, kind, kind.expr, kind.pattern, depth);
    case Function(c) => u := MergeCall(u, c, depth);
    case Case(_, _, _) => u := MergeCase(u, kind, depth);
    case Between(_, _, _, _) => u := MergeBetween(u, kind, depth);
    case InList(_, _, _) => u := MergeInList(u, kind, depth);
    case InSubquery(_, _, _) => u := MergeInSubquery(u, kind, depth);
    case ScalarSubquery(query) => u := MergeSubquery(u, query, depth);
    case Exists(query) => u := MergeSubquery(u, query, depth);
    case Tuple(items) => u := MergeExprs(u, items, depth);
    case Array(items) => u := MergeExprs(u, items, depth);
    case _ =>
  }

  method MergePair(target: Usage, ghost kind: ExprKind, a: Expr, b: Expr, depth: nat) returns (u: Usage)
    requires target.nestingDepth + 1 >= depth && a < kind && b < kind
    ensures u == Absorb(target, Beside(OfExpr(a), OfExpr(b)), depth)
    decreases kind, 0
  {
    hide OfExpr;
    AbsorbPlus(target, OfExpr(a), OfExpr(b), depth);
    u := MergeExpr(target, a, depth);
    u := MergeExpr(u, b, depth);
  }

  method MergeInList(target: Usage, kind: ExprKind, depth: nat) returns (u: Usage)
    requires kind.InList? && target.nestingDepth + 1 >= depth
    ensures u == Absorb(target, OfKind(kind), depth)
    decreases kind, 0
  {
    hide OfExpr, OfExprs;
    AbsorbPlus(target, OfExpr(kind.expr), OfExprs(kind.list), depth);
    u := MergeExpr(target, kind.expr, depth);
    u := MergeExprs(u, kind.list, depth);
  }

  method MergeInSubquery(target: Usage, kind: ExprKind, depth: nat) returns (u: Usage)
    requires kind.InSubquery? && target.nestingDepth + 1 >= depth
    ensures u == Absorb(target, OfKind(kind), depth)
    decreases kind, 0
  {
    hide OfExpr, OfQuery;
    AbsorbPlus(target, OfExpr(kind.expr), OfQuery(kind.subquery), depth);
    u := MergeExpr(target, kind.expr, depth);
    u := MergeSubquery(u, kind.subquery, depth);
  }

  method MergeBetween(target: Usage, kind: ExprKind, depth: nat) returns (u: Usage)
    requires kind.Between? && target.nestingDepth + 1 >= depth
    ensures u == Absorb(target, OfKind(kind), depth)
    decreases kind, 0
  {
    hide OfExpr;
    u := MergeExpr(target, kind.expr, depth);
    AbsorbPlus(u, OfExpr(kind.low), OfExpr(kind.high), depth);
    AbsorbPlus(target, OfExpr(kind.expr), Beside(OfExpr(kind.low), OfExpr(kind.high)), depth);
    u := MergeExpr(u, kind.low, depth);
    u := MergeExpr(u, kind.high, depth);
  }

  method MergeExpr(target: Usage, e: Expr, depth: nat) returns (u: Usage)
    requires target.nestingDepth + 1 >= depth
    ensures u == Absorb(target, OfExpr(e), depth)
    decreases e, 2
  {
    hide OfExpr;
    var inner := MeasureExpr(e, depth);
    u := Merge(target, inner, 0);
  }

  method MergeSubquery(target: Usage, q: Query, depth: nat) returns (u: Usage)
    requires target.nestingDepth + 1 >= depth
    ensures u == Absorb(target, OfQuery(q), depth)
    decreases q, 2
  {
    hide OfQuery;
    var inner := MeasureQuery(q);
    u := Merge(target, inner, depth);
  }

  // ---------- enforcing ----------

  datatype Dimension = InputBytes | Parameters | SyntaxNodes | NestingDepth | Joins | Ctes

  /** One number for each dimension, of a budget or of a usage. */
  function Of(u: Usage, d: Dimension): nat {
    match d
    case InputBytes => u.inputBytes
    case Parameters => u.parameters
    case SyntaxNodes => u.syntaxNodes
    case NestingDepth => u.nestingDepth
    case Joins => u.joins
    case Ctes => u.ctes
  }

  const ORDER: seq<Dimension> := [InputBytes, Parameters, SyntaxNodes, NestingDepth, Joins, Ctes]

  /** The first `n` dimensions checked are within budget. */
  predicate WithinFirst(budget: Usage, usage: Usage, n: nat)
    requires n <= 6
  {
    forall j :: 0 <= j < n ==> Of(usage, ORDER[j]) <= Of(budget, ORDER[j])
  }

  lemma FirstExceeded(budget: Usage, usage: Usage, n: nat)
    requires n < 6 && WithinFirst(budget, usage, n)
    ensures n > 0 ==> usage.inputBytes <= budget.inputBytes
    ensures n > 1 ==> usage.parameters <= budget.parameters
    ensures n > 2 ==> usage.syntaxNodes <= budget.syntaxNodes
    ensures n > 3 ==> usage.nestingDepth <= budget.nestingDepth
    ensures n > 4 ==> usage.joins <= budget.joins
  {
    assert n > 0 ==> Of(usage, ORDER[0]) <= Of(budget, ORDER[0]);
    assert n > 1 ==> Of(usage, ORDER[1]) <= Of(budget, ORDER[1]);
    assert n > 2 ==> Of(usage, ORDER[2]) <= Of(budget, ORDER[2]);
    assert n > 3 ==> Of(usage, ORDER[3]) <= Of(budget, ORDER[3]);
    assert n > 4 ==> Of(usage, ORDER[4]) <= Of(budget, ORDER[4]);
  }

  /** The first exceeded dimension, if any. */
  method Check(budget: Usage, usage: Usage) returns (exceeded: Option<Dimension>)
    ensures exceeded.None? <==> forall d :: Of(usage, d) <= Of(budget, d)
    ensures exceeded ==
            if usage.inputBytes > budget.inputBytes then Some(InputBytes)
            else if usage.parameters > budget.parameters then Some(Parameters)
            else if usage.syntaxNodes > budget.syntaxNodes then Some(SyntaxNodes)
            else if usage.nestingDepth > budget.nestingDepth then Some(NestingDepth)
            else if usage.joins > budget.joins then Some(Joins)
            else if usage.ctes > budget.ctes then Some(Ctes)
            else None
  {
    for i := 0 to 6
      invariant WithinFirst(budget, usage, i)
    {
      if Of(usage, ORDER[i]) > Of(budget, ORDER[i]) {
        FirstExceeded(budget, usage, i);
        return Some(ORDER[i]);
      }
    }
    FirstExceeded(budget, usage, 5);
    assert Of(usage, ORDER[5]) <= Of(budget, ORDER[5]);
    forall d ensures Of(usage, d) <= Of(budget, d) {
      assert d == ORDER[0] || d == ORDER[1] || d == ORDER[2] || d == ORDER[3] || d == ORDER[4] || d == ORDER[5];
    }
    return None;
  }

  // ---------- what the measurements say ----------

  /**
   For every query the depth is below the node count, and the reported CTEs lie between the CTEs there are
   and twice as many.
   */
  lemma MeasuredBounds(q: Query, u: Usage)
    requires Counts(u, TreeOfQuery(q))
    ensures u.nestingDepth < u.syntaxNodes
    ensures Count(TreeOfQuery(q), IS_CTE) <= u.ctes <= 2 * Count(TreeOfQuery(q), IS_CTE)
  {
    hide OfQuery, TreeOfQuery, Count, CountNested, Levels, IsDepth;
    QueryCounts(q);
    LevelsIsDepth(TreeOfQuery(q));
    DepthIsOne(TreeOfQuery(q), u.nestingDepth, Levels(TreeOfQuery(q)) - 1);
  }

  lemma DepthIsOne(t: Tree, a: nat, b: nat)
    requires IsDepth(t, a) && IsDepth(t, b)
    ensures a == b
  {
  }
}
