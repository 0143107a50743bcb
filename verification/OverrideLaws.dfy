/** Laws of the selection rewrite: overlaying, idempotence, and what it leaves alone. */
module OverrideLaws {
  import opened Wrappers
  import opened QuerySyntax
  import opened SelectionOverrides

  // Two rewrites in a row are one, with the later overrides laid over the earlier ones.

  lemma {:induction false} OverlayQuery(o1: Overrides, o2: Overrides, q: Query)
    ensures TransformQuery(Overriding(o2), TransformQuery(Overriding(o1), q)) == TransformQuery(Overriding(o1 + o2), q)
    decreases q, 1
  {
    forall i | 0 <= i < |q.ctes| { OverlayQuery(o1, o2, q.ctes[i].query); }
    var a, b := Overriding(o1), Overriding(o2);
    assert TransformCtes(b, TransformCtes(a, q.ctes)) == TransformCtes(Overriding(o1 + o2), q.ctes);
    OverlaySetExpr(o1, o2, q.body);
    OverlayOrderBys(o1, o2, q.orderBy);
    OverlayOption(o1, o2, q.limit);
    OverlayOption(o1, o2, q.offset);
  }

  lemma {:induction false} OverlaySetExpr(o1: Overrides, o2: Overrides, e: SetExpr)
    ensures TransformSetExpr(Overriding(o2), TransformSetExpr(Overriding(o1), e)) == TransformSetExpr(Overriding(o1 + o2), e)
    decreases e, 1
  {
    match e
    case SelectBody(select) => OverlaySelect(o1, o2, select);
    case UnionAll(left, right, _) =>
      OverlaySetExpr(o1, o2, left);
      OverlaySetExpr(o1, o2, right);
    case _ =>
  }

  lemma {:induction false} OverlaySelect(o1: Overrides, o2: Overrides, s: Select)
    ensures TransformSelect(Overriding(o2), TransformSelect(Overriding(o1), s)) == TransformSelect(Overriding(o1 + o2), s)
    decreases s, 1
  {
    hide TransformItems, TransformTables, TransformExprs, TransformOption;
    OverlayItems(o1, o2, s.projection);
    OverlayTables(o1, o2, s.from);
    OverlayExprs(o1, o2, s.groupBy);
    OverlayOption(o1, o2, s.having);
  }

  lemma {:induction false} OverlayItems(o1: Overrides, o2: Overrides, items: seq<ProjectionItem>)
    ensures TransformItems(Overriding(o2), TransformItems(Overriding(o1), items)) == TransformItems(Overriding(o1 + o2), items)
    decreases items, 0
  {
    forall i | 0 <= i < |items| { OverlayItem(o1, o2, items[i]); }
  }

  lemma {:induction false} OverlayTables(o1: Overrides, o2: Overrides, tables: seq<TableWithJoins>)
    ensures TransformTables(Overriding(o2), TransformTables(Overriding(o1), tables))
         == TransformTables(Overriding(o1 + o2), tables)
    decreases tables, 0
  {
    forall i | 0 <= i < |tables| { OverlayTable(o1, o2, tables[i]); }
  }

  lemma {:induction false} OverlayItem(o1: Overrides, o2: Overrides, item: ProjectionItem)
    ensures TransformItem(Overriding(o2), TransformItem(Overriding(o1), item)) == TransformItem(Overriding(o1 + o2), item)
    decreases item, 1
  {
    if item.ProjectionExpr? { OverlayExpr(o1, o2, item.expr); }
  }

  lemma {:induction false} OverlayTable(o1: Overrides, o2: Overrides, t: TableWithJoins)
    ensures TransformTable(Overriding(o2), TransformTable(Overriding(o1), t)) == TransformTable(Overriding(o1 + o2), t)
    decreases t, 1
  {
    OverlayRelation(o1, o2, t.relation);
    forall i | 0 <= i < |t.joins| { OverlayJoin(o1, o2, t.joins[i]); }
    assert TransformJoins(Overriding(o2), TransformJoins(Overriding(o1), t.joins))
        == TransformJoins(Overriding(o1 + o2), t.joins);
  }

  lemma {:induction false} OverlayJoin(o1: Overrides, o2: Overrides, j: Join)
    ensures TransformJoin(Overriding(o2), TransformJoin(Overriding(o1), j)) == TransformJoin(Overriding(o1 + o2), j)
    decreases j, 1
  {
    OverlayRelation(o1, o2, j.relation);
    OverlayOption(o1, o2, j.on);
  }

  lemma {:induction false} OverlayRelation(o1: Overrides, o2: Overrides, r: Relation)
    ensures TransformRelation(Overriding(o2), TransformRelation(Overriding(o1), r)) == TransformRelation(Overriding(o1 + o2), r)
    decreases r, 1
  {
    match r
    case Derived(query, _, _) => OverlayQuery(o1, o2, query);
    case NestedJoin(table, _, _) => OverlayTable(o1, o2, table);
    case _ =>
  }

  lemma {:induction false} OverlayOrderBy(o1: Overrides, o2: Overrides, o: OrderBy)
    ensures TransformOrderBy(Overriding(o2), TransformOrderBy(Overriding(o1), o)) == TransformOrderBy(Overriding(o1 + o2), o)
    decreases o, 1
  {
    OverlayExpr(o1, o2, o.expr);
  }

  lemma {:induction false} OverlayOrderBys(o1: Overrides, o2: Overrides, os: seq<OrderBy>)
    ensures TransformOrderBys(Overriding(o2), TransformOrderBys(Overriding(o1), os)) == TransformOrderBys(Overriding(o1 + o2), os)
    decreases os, 0
  {
    forall i | 0 <= i < |os| { OverlayOrderBy(o1, o2, os[i]); }
  }

  lemma {:induction false} OverlayOption(o1: Overrides, o2: Overrides, e: Option<Expr>)
    ensures TransformOption(Overriding(o2), TransformOption(Overriding(o1), e)) == TransformOption(Overriding(o1 + o2), e)
    decreases e, 0
  {
    if e.Some? { OverlayExpr(o1, o2, e.value); }
  }

  lemma {:induction false} OverlayExprs(o1: Overrides, o2: Overrides, es: seq<Expr>)
    ensures TransformExprs(Overriding(o2), TransformExprs(Overriding(o1), es)) == TransformExprs(Overriding(o1 + o2), es)
    decreases es, 0
  {
    forall i | 0 <= i < |es| { OverlayExpr(o1, o2, es[i]); }
  }

  lemma {:induction false} OverlayWhenThen(o1: Overrides, o2: Overrides, w: WhenThen)
    ensures TransformWhenThen(Overriding(o2), TransformWhenThen(Overriding(o1), w)) == TransformWhenThen(Overriding(o1 + o2), w)
    decreases w, 1
  {
    OverlayExpr(o1, o2, w.condition);
    OverlayExpr(o1, o2, w.result);
  }

  lemma {:induction false} OverlayWhenThens(o1: Overrides, o2: Overrides, ws: seq<WhenThen>)
    ensures TransformWhenThens(Overriding(o2), TransformWhenThens(Overriding(o1), ws))
         == TransformWhenThens(Overriding(o1 + o2), ws)
    decreases ws, 0
  {
    forall i | 0 <= i < |ws| { OverlayWhenThen(o1, o2, ws[i]); }
  }

  lemma {:induction false} OverlayWindow(o1: Overrides, o2: Overrides, w: Option<WindowSpec>)
    ensures TransformWindow(Overriding(o2), TransformWindow(Overriding(o1), w)) == TransformWindow(Overriding(o1 + o2), w)
    decreases w, 0
  {
    if w.Some? {
      OverlayExprs(o1, o2, w.value.partitionBy);
      OverlayOrderBys(o1, o2, w.value.orderBy);
    }
  }

  lemma {:induction false} OverlayExpr(o1: Overrides, o2: Overrides, e: Expr)
    ensures TransformExpr(Overriding(o2), TransformExpr(Overriding(o1), e)) == TransformExpr(Overriding(o1 + o2), e)
    decreases e, 1
  {
    OverlayKind(o1, o2, e.kind);
  }

  lemma HowKind(t: Transformer, kind: ExprKind)
    ensures HoldsQuery(kind) ==> TransformKind(t, kind) == TransformQueryHolder(t, kind)
    ensures HoldsList(kind) ==> TransformKind(t, kind) == TransformListHolder(t, kind)
    ensures HoldsParts(kind) ==> TransformKind(t, kind) == TransformPartsHolder(t, kind)
    ensures !HoldsQuery(kind) && !HoldsList(kind) && !HoldsParts(kind) ==> TransformKind(t, kind) == TransformSimple(t, kind)
  {
    hide TransformQueryHolder, TransformListHolder, TransformPartsHolder, TransformSimple;
  }

  lemma {:induction false} OverlayKind(o1: Overrides, o2: Overrides, kind: ExprKind)
    ensures TransformKind(Overriding(o2), TransformKind(Overriding(o1), kind)) == TransformKind(Overriding(o1 + o2), kind)
    decreases kind, 1
  {
    hide TransformKind, TransformQueryHolder, TransformListHolder, TransformPartsHolder, TransformSimple;
    hide HoldsQuery, HoldsList, HoldsParts;
    HowKind(Overriding(o1), kind);
    HowKind(Overriding(o1 + o2), kind);
    HowKind(Overriding(o2), TransformKind(Overriding(o1), kind));
    if HoldsQuery(kind) {
      OverlayQueryHolder(o1, o2, kind);
    } else if HoldsList(kind) {
      OverlayListHolder(o1, o2, kind);
    } else if HoldsParts(kind) {
      OverlayPartsHolder(o1, o2, kind);
    } else {
      OverlaySimple(o1, o2, kind);
    }
  }

  lemma {:induction false} OverlayQueryHolder(o1: Overrides, o2: Overrides, kind: ExprKind)
    requires HoldsQuery(kind)
    ensures HoldsQuery(TransformQueryHolder(Overriding(o1), kind))
    ensures TransformQueryHolder(Overriding(o2), TransformQueryHolder(Overriding(o1), kind))
         == TransformQueryHolder(Overriding(o1 + o2), kind)
    decreases kind, 0
  {
    hide TransformExpr, TransformQuery, ObeysKind;
    match kind
    case ScalarSubquery(query) => OverlayQuery(o1, o2, query);
    case Exists(query) => OverlayQuery(o1, o2, query);
    case InSubquery(inner, subquery, _) => OverlayExpr(o1, o2, inner); OverlayQuery(o1, o2, subquery);
  }

  lemma {:induction false} OverlayListHolder(o1: Overrides, o2: Overrides, kind: ExprKind)
    requires HoldsList(kind)
    ensures HoldsList(TransformListHolder(Overriding(o1), kind))
    ensures TransformListHolder(Overriding(o2), TransformListHolder(Overriding(o1), kind))
         == TransformListHolder(Overriding(o1 + o2), kind)
    decreases kind, 0
  {
    hide TransformExpr, TransformExprs, ObeysKind;
    match kind
    case InList(inner, list, _) => OverlayExpr(o1, o2, inner); OverlayExprs(o1, o2, list);
    case Tuple(items) => OverlayExprs(o1, o2, items);
    case Array(items) => OverlayExprs(o1, o2, items);
  }

  lemma {:induction false} OverlayPartsHolder(o1: Overrides, o2: Overrides, kind: ExprKind)
    requires HoldsParts(kind)
    ensures HoldsParts(TransformPartsHolder(Overriding(o1), kind))
    ensures TransformPartsHolder(Overriding(o2), TransformPartsHolder(Overriding(o1), kind))
         == TransformPartsHolder(Overriding(o1 + o2), kind)
    decreases kind, 0
  {
    hide TransformExpr, TransformOption, TransformWhenThens, ObeysKind;
    match kind
    case Case(operand, whenThen, elseResult) =>
      OverlayOption(o1, o2, operand);
      OverlayWhenThens(o1, o2, whenThen);
      OverlayOption(o1, o2, elseResult);
    case Between(inner, low, high, _) =>
      OverlayExpr(o1, o2, inner);
      OverlayExpr(o1, o2, low);
      OverlayExpr(o1, o2, high);
    case Like(inner, pattern, _, _) => OverlayExpr(o1, o2, inner); OverlayExpr(o1, o2, pattern);
  }

  lemma {:induction false} OverlaySimple(o1: Overrides, o2: Overrides, kind: ExprKind)
    requires !HoldsQuery(kind) && !HoldsList(kind) && !HoldsParts(kind)
    ensures var r := TransformSimple(Overriding(o1), kind); !HoldsQuery(r) && !HoldsList(r) && !HoldsParts(r)
    ensures TransformSimple(Overriding(o2), TransformSimple(Overriding(o1), kind)) == TransformSimple(Overriding(o1 + o2), kind)
    decreases kind, 0
  {
    hide TransformExpr, TransformCall, ObeysKind;
    match kind
    case Unary(_, inner) => OverlayExpr(o1, o2, inner);
    case Binary(_, left, right) => OverlayExpr(o1, o2, left); OverlayExpr(o1, o2, right);
    case Function(call) => OverlayCall(o1, o2, call);
    case Cast(inner, _) => OverlayExpr(o1, o2, inner);
    case IsNull(inner, _) => OverlayExpr(o1, o2, inner);
    case _ =>
  }

  lemma {:induction false} OverlayCall(o1: Overrides, o2: Overrides, c: FunctionCall)
    ensures TransformCall(Overriding(o2), TransformCall(Overriding(o1), c)) == TransformCall(Overriding(o1 + o2), c)
    decreases c, 1
  {
    OverlayExprs(o1, o2, c.args);
    OverlayOption(o1, o2, c.filter);
    OverlayWindow(o1, o2, c.over);
  }

  // ---------- the laws ----------

  lemma OverridesCompose(q: Query, o1: Overrides, o2: Overrides)
    ensures ApplySelectionOverrides(ApplySelectionOverrides(q, o1), o2) == ApplySelectionOverrides(q, o1 + o2)
  {
    OverlayQuery(o1, o2, q);
  }

  lemma OverridesAreIdempotent(q: Query, o: Overrides)
    ensures ApplySelectionOverrides(ApplySelectionOverrides(q, o), o) == ApplySelectionOverrides(q, o)
  {
    OverlayQuery(o, o, q);
    assert o + o == o;
  }

  lemma EmptyOverridesChangeNothing(q: Query)
    ensures ApplySelectionOverrides(q, map[]) == q && TransformQuery(Default, q) == q
  {
  }

  /** The same overrides with every selection removed. */
  function Cleared(o: Overrides): Overrides {
    map k | k in o :: None
  }

  /**
   What the rewrite does, in full: every SELECT reached outside WHERE clauses whose id is overridden
   has the override as its selection, and clearing those selections before or after makes no
   difference, so nothing else changed.
   */
  lemma OverridesReplaceExactlyTheirSelections(q: Query, o: Overrides)
    ensures ObeysQuery(o, ApplySelectionOverrides(q, o))
    ensures ApplySelectionOverrides(ApplySelectionOverrides(q, o), Cleared(o)) == ApplySelectionOverrides(q, Cleared(o))
  {
    OverlayQuery(o, Cleared(o), q);
    assert o + Cleared(o) == Cleared(o);
  }

  /**
   The rewrite leaves a query alone if and only if every SELECT outside WHERE clauses whose id is
   overridden has its override already; so overrides whose ids occur only inside WHERE clauses do nothing.
   */
  lemma UnchangedExactlyWhenObeyed(q: Query, o: Overrides)
    ensures ApplySelectionOverrides(q, o) == q <==> ObeysQuery(o, q)
  {
    hide ObeysQuery;
    var r := ApplySelectionOverrides(q, o);
    assert ObeysQuery(o, r);
  }
}
