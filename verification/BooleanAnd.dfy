/** Flattening and rebuilding conjunctions, and why that keeps a condition's meaning (opt/src/syntax.rs). */
module BooleanAnd {
  import opened Wrappers
  import opened Decimal
  import opened QuerySyntax

  predicate IsAnd(e: Expr) {
    e.kind.Binary? && e.kind.op == And
  }

  function Flatten(e: Expr): (items: seq<Expr>)
    ensures |items| > 0
    ensures forall i :: 0 <= i < |items| ==> !(items[i].kind.Binary? && items[i].kind.op == And)
  {
    if IsAnd(e) then Flatten(e.kind.left) + Flatten(e.kind.right) else [e]
  }

  function AndNode(left: Expr, right: Expr, index: nat, node: Node): Expr {
    Expr(Binary(And, left, right), Node(node.span, node.nodeId + ".and[" + OfNat(index) + "]"))
  }

  /** The left-deep conjunction of the first `n` items. */
  function RebuildFirst(items: seq<Expr>, n: nat, node: Node): Expr
    requires 0 < n <= |items|
  {
    if n == 1 then items[0] else AndNode(RebuildFirst(items, n - 1, node), items[n - 1], n - 2, node)
  }

  method RebuildBooleanAnd(items: seq<Expr>, node: Node) returns (r: Option<Expr>)
    ensures r == if items == [] then None else Some(RebuildFirst(items, |items|, node))
  {
    if items == [] {
      return None;
    }
    var current := items[0];
    var rest := items[1..];
    for index := 0 to |rest|
      invariant current == RebuildFirst(items, index + 1, node)
    {
      current := Expr(Binary(And, current, rest[index]), Node(node.span, node.nodeId + ".and[" + OfNat(index) + "]"));
    }
    return Some(current);
  }

  /** The operand `k` steps down to the left. */
  function LeftOf(e: Expr, k: nat): Option<Expr> {
    if k == 0 then Some(e) else if e.kind.Binary? then LeftOf(e.kind.left, k - 1) else None
  }

  /**
   Down its left side the conjunction joins the items from the last to the first; each joint is an AND with
   the span of the given node and its id with the joint's number behind it.
   */
  lemma {:induction false} RebuiltIsLeftDeep(items: seq<Expr>, n: nat, m: nat, node: Node)
    requires 0 < m <= n <= |items|
    ensures var part := LeftOf(RebuildFirst(items, n, node), n - m);
            part.Some? &&
            if m == 1 then part.value == items[0]
            else part.value.kind.Binary? && part.value.kind.op == And && part.value.kind.right == items[m - 1] &&
                 part.value.node == Node(node.span, node.nodeId + (".and[" + OfNat(m - 2) + "]"))
    decreases n
  {
    if m < n {
      RebuiltIsLeftDeep(items, n - 1, m, node);
    } else if m > 1 {
      assert node.nodeId + ".and[" + OfNat(m - 2) + "]" == node.nodeId + (".and[" + OfNat(m - 2) + "]");
    }
  }

  // ---------- SQL's three-valued logic ----------

  datatype Truth = True | False | Unknown

  function And3(a: Truth, b: Truth): Truth {
    if a == False || b == False then False else if a == True && b == True then True else Unknown
  }

  /** The truth of a condition when its conjuncts have these truth values. */
  function Eval(e: Expr, leaf: Expr -> Truth): Truth {
    match e.kind
    case Binary(And, left, right) => And3(Eval(left, leaf), Eval(right, leaf))
    case _ => leaf(e)
  }

  function AllOf(items: seq<Expr>, leaf: Expr -> Truth): Truth {
    if items == [] then True else And3(Eval(items[0], leaf), AllOf(items[1..], leaf))
  }

  lemma {:induction false} AllOfConcat(a: seq<Expr>, b: seq<Expr>, leaf: Expr -> Truth)
    ensures AllOf(a + b, leaf) == And3(AllOf(a, leaf), AllOf(b, leaf))
  {
    if a == [] {
      assert a + b == b;
    } else {
      AllOfConcat(a[1..], b, leaf);
      assert (a + b)[1..] == a[1..] + b;
    }
  }

  lemma {:induction false} FlattenMeaning(e: Expr, leaf: Expr -> Truth)
    ensures AllOf(Flatten(e), leaf) == Eval(e, leaf)
  {
    if IsAnd(e) {
      FlattenMeaning(e.kind.left, leaf);
      FlattenMeaning(e.kind.right, leaf);
      AllOfConcat(Flatten(e.kind.left), Flatten(e.kind.right), leaf);
    } else {
      assert Flatten(e)[1..] == [];
    }
  }

  lemma {:induction false} RebuildMeaning(items: seq<Expr>, n: nat, node: Node, leaf: Expr -> Truth)
    requires 0 < n <= |items|
    ensures Eval(RebuildFirst(items, n, node), leaf) == AllOf(items[..n], leaf)
  {
    if n == 1 {
      assert items[..1] == [items[0]] && items[..1][1..] == [];
    } else {
      RebuildMeaning(items, n - 1, node, leaf);
      assert items[..n] == items[..n - 1] + [items[n - 1]];
      AllOfConcat(items[..n - 1], [items[n - 1]], leaf);
      assert [items[n - 1]][1..] == [];
    }
  }

  /** Rebuilding the flattened conjuncts gives a condition that is true, false or unknown exactly when the original is. */
  lemma FlattenRebuildPreservesMeaning(e: Expr, node: Node, leaf: Expr -> Truth)
    ensures Eval(RebuildFirst(Flatten(e), |Flatten(e)|, node), leaf) == Eval(e, leaf)
  {
    var items := Flatten(e);
    RebuildMeaning(items, |items|, node, leaf);
    FlattenMeaning(e, leaf);
    assert items[..|items|] == items;
  }

  function FlattenAll(items: seq<Expr>): seq<Expr> {
    if items == [] then [] else FlattenAll(items[..|items| - 1]) + Flatten(items[|items| - 1])
  }

  /** Flattening a rebuilt list gives the flattened items one after the other. */
  lemma {:induction false} FlattenOfRebuilt(items: seq<Expr>, n: nat, node: Node)
    requires 0 < n <= |items|
    ensures Flatten(RebuildFirst(items, n, node)) == FlattenAll(items[..n])
  {
    if n == 1 {
      assert items[..1][..0] == [];
      assert FlattenAll(items[..1]) == FlattenAll([]) + Flatten(items[0]);
    } else {
      FlattenOfRebuilt(items, n - 1, node);
      assert items[..n][..n - 1] == items[..n - 1];
    }
  }

  lemma {:induction false} FlattenAllOfLeaves(items: seq<Expr>)
    requires forall i :: 0 <= i < |items| ==> !IsAnd(items[i])
    ensures FlattenAll(items) == items
  {
    if items != [] {
      FlattenAllOfLeaves(items[..|items| - 1]);
    }
  }

  /** Rebuilding loses, duplicates and reorders no conjunct. */
  lemma RebuildKeepsConjuncts(e: Expr, node: Node)
    ensures Flatten(RebuildFirst(Flatten(e), |Flatten(e)|, node)) == Flatten(e)
  {
    var items := Flatten(e);
    FlattenOfRebuilt(items, |items|, node);
    FlattenAllOfLeaves(items);
    assert items[..|items|] == items;
  }
}
