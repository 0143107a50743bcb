/** Portable data types, their common type, and what a list parameter is inferred to hold (types.rs). */
module DataTypes {
  import opened Wrappers

  datatype DataType =
    | BooleanType | Int32 | Int64 | Float64 | Utf8 | Uuid | Json | Date
    | Decimal(precision: nat, scale: int)
    | Timestamp(timezone: Option<string>)
    | List(element: DataType)
    | Struct(fields: seq<ResultField>)
    | Unknown

  datatype ResultField = ResultField(name: string, dataType: DataType, nullable: bool, metadata: map<string, string>)

  function Lifted(a: Option<DataType>): Option<DataType> {
    match a
    case None => None
    case Some(t) => Some(List(t))
  }

  function CommonType(left: DataType, right: DataType): Option<DataType> {
    if left == right then Some(left)
    else
      match (left, right)
      case (Unknown, other) => Some(other)
      case (other, Unknown) => Some(other)
      case (Int32, Int64) => Some(Int64)
      case (Int64, Int32) => Some(Int64)
      case (Int32, Float64) => Some(Float64)
      case (Float64, Int32) => Some(Float64)
      case (Int64, Float64) => Some(Float64)
      case (Float64, Int64) => Some(Float64)
      case (List(l), List(r)) => Lifted(CommonType(l, r))
      case _ => None
  }

  /** Common type with failure absorbing everything. */
  function Join(a: Option<DataType>, b: Option<DataType>): Option<DataType> {
    if a.None? || b.None? then None else CommonType(a.value, b.value)
  }

  lemma {:induction false} CommonTypeCommutes(a: DataType, b: DataType)
    ensures CommonType(a, b) == CommonType(b, a)
  {
    if a.List? && b.List? {
      CommonTypeCommutes(a.element, b.element);
    }
  }

  lemma JoinCommutes(a: Option<DataType>, b: Option<DataType>)
    ensures Join(a, b) == Join(b, a)
  {
    if a.Some? && b.Some? { CommonTypeCommutes(a.value, b.value); }
  }

  predicate Numeric(a: DataType) {
    a == Int32 || a == Int64 || a == Float64
  }

  /** Types that only agree with themselves and with an unknown type. */
  predicate Flat(a: DataType) {
    !Numeric(a) && !a.List? && a != Unknown
  }

  function Wider(a: DataType, b: DataType): DataType {
    if a == Float64 || b == Float64 then Float64 else if a == Int64 || b == Int64 then Int64 else a
  }

  lemma FlatCommon(a: DataType, b: DataType)
    requires Flat(a)
    ensures CommonType(a, b) == CommonType(b, a) == if b == a || b == Unknown then Some(a) else None
  {
  }

  lemma NumericCommon(a: DataType, b: DataType)
    requires Numeric(a)
    ensures CommonType(a, b) == CommonType(b, a) ==
            if Numeric(b) then Some(Wider(a, b)) else if b == Unknown then Some(a) else None
  {
  }

  lemma SameCommon(a: DataType)
    ensures CommonType(a, a) == Some(a)
  {
  }

  lemma LiftedSome(a: DataType)
    ensures Lifted(Some(a)) == Some(List(a))
  {
  }

  lemma ListCommon(l: DataType, r: DataType)
    ensures CommonType(List(l), List(r)) == Lifted(CommonType(l, r))
  {
    hide Lifted;
    if l == r {
      SameCommon(l);
      LiftedSome(l);
    }
  }

  lemma {:induction false} CommonTypeAssociates(a: DataType, b: DataType, c: DataType)
    ensures Join(CommonType(a, b), Some(c)) == Join(Some(a), CommonType(b, c))
  {
    if a == Unknown || b == Unknown || c == Unknown {
      UnknownAssociates(a, b, c);
    } else if Flat(a) || Flat(b) || Flat(c) {
      FlatAssociates(a, b, c);
    } else if a.List? && b.List? && c.List? {
      CommonTypeAssociates(a.element, b.element, c.element);
      ListAssociates(a.element, b.element, c.element);
    } else if Numeric(a) && Numeric(b) && Numeric(c) {
    } else {
      MixedAssociates(a, b, c);
    }
  }

  lemma UnknownCommon(a: DataType)
    ensures CommonType(Unknown, a) == Some(a) == CommonType(a, Unknown)
  {
  }

  lemma UnknownAssociates(a: DataType, b: DataType, c: DataType)
    requires a == Unknown || b == Unknown || c == Unknown
    ensures Join(CommonType(a, b), Some(c)) == Join(Some(a), CommonType(b, c))
  {
    if a == Unknown {
      UnknownCommon(b);
      if CommonType(b, c).Some? { UnknownCommon(CommonType(b, c).value); }
    } else if b == Unknown {
      UnknownCommon(a);
      UnknownCommon(c);
    } else {
      UnknownCommon(b);
      if CommonType(a, b).Some? { UnknownCommon(CommonType(a, b).value); }
    }
  }

  /** Two types with a common type are both flat or neither is, and so is the common type. */
  lemma CommonKeepsFlat(a: DataType, b: DataType)
    requires a != Unknown && b != Unknown && CommonType(a, b).Some?
    ensures Flat(a) ==> a == b == CommonType(a, b).value
    ensures Flat(b) ==> a == b == CommonType(a, b).value
    ensures !Flat(a) ==> !Flat(CommonType(a, b).value)
    ensures CommonType(a, b).value != Unknown
    ensures a.List? <==> b.List?
    ensures a.List? <==> CommonType(a, b).value.List?
  {
    if Flat(a) { FlatCommon(a, b); }
    if Flat(b) { FlatCommon(b, a); }
  }

  lemma FlatFirst(a: DataType, b: DataType, c: DataType)
    requires a != Unknown && b != Unknown && c != Unknown && Flat(a)
    ensures Join(CommonType(a, b), Some(c)) == Join(Some(a), CommonType(b, c))
  {
    hide CommonType, Flat;
    if a == b {
      FlatMiddle(a, b, c);
    } else {
      FlatCommon(a, b);
      if CommonType(b, c).Some? { FlatMeetsNone(a, b, c); }
    }
  }

  lemma FlatMeetsNone(a: DataType, b: DataType, c: DataType)
    requires Flat(a) && a != b && b != Unknown && c != Unknown && CommonType(b, c).Some?
    ensures CommonType(a, CommonType(b, c).value) == None
  {
    hide CommonType, Flat;
    CommonKeepsFlat(b, c);
    FlatCommon(a, CommonType(b, c).value);
  }

  lemma FlatMiddle(a: DataType, b: DataType, c: DataType)
    requires a != Unknown && c != Unknown && Flat(b)
    ensures Join(CommonType(a, b), Some(c)) == Join(Some(a), CommonType(b, c))
  {
    hide CommonType, Flat;
    FlatCommon(b, a);
    FlatCommon(b, c);
  }

  lemma FlatAssociates(a: DataType, b: DataType, c: DataType)
    requires a != Unknown && b != Unknown && c != Unknown && (Flat(a) || Flat(b) || Flat(c))
    ensures Join(CommonType(a, b), Some(c)) == Join(Some(a), CommonType(b, c))
  {
    hide CommonType, Flat, Join;
    if Flat(a) {
      FlatFirst(a, b, c);
    } else if Flat(b) {
      FlatMiddle(a, b, c);
    } else {
      FlatFirst(c, b, a);
      CommonTypeCommutes(a, b);
      CommonTypeCommutes(b, c);
      JoinCommutes(CommonType(a, b), Some(c));
      JoinCommutes(Some(a), CommonType(b, c));
    }
  }

  lemma ListAssociates(a: DataType, b: DataType, c: DataType)
    requires Join(CommonType(a, b), Some(c)) == Join(Some(a), CommonType(b, c))
    ensures Join(CommonType(List(a), List(b)), Some(List(c))) == Join(Some(List(a)), CommonType(List(b), List(c)))
  {
    ListJoin(CommonType(a, b), Some(c));
    ListJoin(Some(a), CommonType(b, c));
    ListCommon(a, b);
    ListCommon(b, c);
  }

  lemma ListJoin(a: Option<DataType>, b: Option<DataType>)
    ensures Join(Lifted(a), Lifted(b)) == Lifted(Join(a, b))
  {
    if a.Some? && b.Some? { ListCommon(a.value, b.value); }
  }

  /** Lists and numbers never meet. */
  lemma MixedAssociates(a: DataType, b: DataType, c: DataType)
    requires (a.List? || Numeric(a)) && (b.List? || Numeric(b)) && (c.List? || Numeric(c))
    requires !(a.List? && b.List? && c.List?) && !(Numeric(a) && Numeric(b) && Numeric(c))
    ensures Join(CommonType(a, b), Some(c)) == None == Join(Some(a), CommonType(b, c))
  {
    if CommonType(a, b).Some? {
      CommonKeepsFlat(a, b);
      NeverMeet(CommonType(a, b).value, c);
    }
    if CommonType(b, c).Some? {
      CommonKeepsFlat(b, c);
      NeverMeet(a, CommonType(b, c).value);
    }
  }

  lemma NeverMeet(a: DataType, b: DataType)
    requires a != Unknown && b != Unknown && (a.List? <==> !b.List?)
    ensures CommonType(a, b) == None
  {
  }

  lemma JoinAssociates(a: Option<DataType>, b: Option<DataType>, c: Option<DataType>)
    ensures Join(Join(a, b), c) == Join(a, Join(b, c))
  {
    if a.Some? && b.Some? && c.Some? { CommonTypeAssociates(a.value, b.value, c.value); }
  }

  // ---------- inferring what a list parameter holds ----------

  datatype ParameterValue =
    | Null | Boolean(bool) | Int64Value(int) | Float64Value(string) | Utf8Value(string) | UuidValue(string) | JsonValue(string)
    | ListValue(values: seq<ParameterValue>)

  function InferredType(value: ParameterValue): DataType {
    match value
    case Null => Unknown
    case Boolean(_) => BooleanType
    case Int64Value(_) => Int64
    case Float64Value(_) => Float64
    case Utf8Value(_) => Utf8
    case UuidValue(_) => Uuid
    case JsonValue(_) => Json
    case ListValue(values) => List(Reduce(KnownTypes(values)))
  }

  /** The types of the elements, those without a type of their own left out. */
  function KnownTypes(values: seq<ParameterValue>): (types: seq<DataType>)
    ensures Unknown !in types
  {
    if |values| == 0 then []
    else
      var rest := KnownTypes(values[1..]);
      var first := InferredType(values[0]);
      if first == Unknown then rest else [first] + rest
  }

  /** A clash is forgotten: the next element starts over. */
  function Absorb(left: DataType, right: DataType): DataType {
    match CommonType(left, right)
    case None => Unknown
    case Some(common) => common
  }

  function Fold(state: DataType, types: seq<DataType>): DataType
    decreases |types|
  {
    if |types| == 0 then state else Fold(Absorb(state, types[0]), types[1..])
  }

  function Reduce(types: seq<DataType>): DataType {
    if |types| == 0 then Unknown else Fold(types[0], types[1..])
  }

  /** The common type of all of them, if there is one. */
  function JoinAll(types: seq<DataType>): Option<DataType>
    decreases |types|
  {
    if |types| == 0 then Some(Unknown) else Join(Some(types[0]), JoinAll(types[1..]))
  }

  /** Two members, or one that is there twice. */
  predicate Together(a: DataType, b: DataType, types: seq<DataType>) {
    a in types && b in types && (a == b ==> multiset(types)[a] >= 2)
  }

  /** No two of them have a common type. */
  ghost predicate AllClash(types: seq<DataType>) {
    forall a, b :: Together(a, b, types) ==> CommonType(a, b).None?
  }

  ghost predicate OrderFree(types: seq<DataType>) {
    forall order: seq<DataType> :: multiset(order) == multiset(types) ==> Reduce(order) == Reduce(types)
  }

  lemma ReduceIsFold(types: seq<DataType>)
    ensures Reduce(types) == Fold(Unknown, types)
  {
    if |types| > 0 { UnknownCommon(types[0]); }
  }

  lemma {:induction false} FoldConcat(state: DataType, s: seq<DataType>, t: seq<DataType>)
    ensures Fold(state, s + t) == Fold(Fold(state, s), t)
    decreases |s|
  {
    if |s| == 0 {
      assert s + t == t;
    } else {
      assert (s + t)[0] == s[0] && (s + t)[1..] == s[1..] + t;
      FoldConcat(Absorb(state, s[0]), s[1..], t);
    }
  }

  lemma {:induction false} FoldIsJoin(state: DataType, types: seq<DataType>)
    requires Join(Some(state), JoinAll(types)).Some?
    ensures Some(Fold(state, types)) == Join(Some(state), JoinAll(types))
    decreases |types|
  {
    if |types| == 0 {
      UnknownCommon(state);
    } else {
      JoinAssociates(Some(state), Some(types[0]), JoinAll(types[1..]));
      FoldIsJoin(Absorb(state, types[0]), types[1..]);
    }
  }

  /** With a common type in sight, the reduction finds it. */
  lemma ReduceFindsCommonType(types: seq<DataType>)
    requires JoinAll(types).Some?
    ensures Some(Reduce(types)) == JoinAll(types)
  {
    ReduceIsFold(types);
    UnknownCommon(JoinAll(types).value);
    FoldIsJoin(Unknown, types);
  }

  /** Every member can be moved to the front. */
  lemma {:induction false} Extract(x: DataType, types: seq<DataType>) returns (rest: seq<DataType>)
    requires x in types
    ensures |types| == 1 + |rest|
    ensures multiset(types) == multiset([x] + rest)
    ensures JoinAll(types) == Join(Some(x), JoinAll(rest))
    decreases |types|
  {
    var y, tail := types[0], types[1..];
    assert types == [y] + tail;
    if x == y {
      rest := tail;
    } else {
      var inner := Extract(x, tail);
      rest := [y] + inner;
      assert rest[1..] == inner;
      var j := JoinAll(inner);
      JoinAssociates(Some(y), Some(x), j);
      JoinAssociates(Some(x), Some(y), j);
      JoinCommutes(Some(x), Some(y));
    }
  }

  lemma TailOf<T>(s: seq<T>, rest: seq<T>)
    requires |s| > 0 && multiset(s) == multiset([s[0]] + rest)
    ensures multiset(s[1..]) == multiset(rest)
  {
    assert s == [s[0]] + s[1..];
    Counts(s[0], s[1..]);
    Counts(s[0], rest);
    assert forall y :: multiset(s[1..])[y] == multiset(rest)[y] by {
      forall y ensures multiset(s[1..])[y] == multiset(rest)[y] {
        assert multiset(s)[y] == multiset([s[0]] + rest)[y];
      }
    }
  }

  lemma SameMembers<T>(s: seq<T>, t: seq<T>)
    requires multiset(s) == multiset(t)
    ensures |s| == |t|
    ensures |s| > 0 ==> s[0] in t
  {
    assert |multiset(s)| == |multiset(t)|;
    if |s| > 0 {
      assert s[0] in multiset(s);
      assert s[0] in multiset(t);
    }
  }

  lemma {:induction false} JoinAllIgnoresOrder(s: seq<DataType>, t: seq<DataType>)
    requires multiset(s) == multiset(t)
    ensures JoinAll(s) == JoinAll(t)
    decreases |s|
  {
    SameMembers(s, t);
    if |s| == 0 {
      assert s == t;
    } else {
      var rest := Extract(s[0], t);
      TailOf(s, rest);
      JoinAllIgnoresOrder(s[1..], rest);
    }
  }

  /** Three types that agree pairwise agree together. */
  lemma {:induction false} PairsAgree(x: DataType, a: DataType, b: DataType)
    requires CommonType(x, a).Some? && CommonType(x, b).Some? && CommonType(a, b).Some?
    ensures CommonType(x, CommonType(a, b).value).Some?
  {
    hide CommonType;
    SameCommon(x);
    if x == Unknown || a == Unknown || b == Unknown {
      UnknownCommon(a);
      UnknownCommon(b);
      UnknownCommon(CommonType(a, b).value);
    } else if Flat(x) || Flat(a) || Flat(b) {
      CommonKeepsFlat(x, a);
      CommonKeepsFlat(x, b);
      CommonKeepsFlat(a, b);
    } else if x.List? {
      CommonKeepsFlat(x, a);
      CommonKeepsFlat(x, b);
      ListCommon(x.element, a.element);
      ListCommon(x.element, b.element);
      ListCommon(a.element, b.element);
      PairsAgree(x.element, a.element, b.element);
      ListCommon(x.element, CommonType(a.element, b.element).value);
    } else {
      CommonKeepsFlat(x, a);
      CommonKeepsFlat(x, b);
      NumericCommon(a, b);
      NumericCommon(x, Wider(a, b));
    }
  }

  lemma {:induction false} AgreesWithAll(x: DataType, types: seq<DataType>)
    requires JoinAll(types).Some? && forall y :: y in types ==> CommonType(x, y).Some?
    ensures CommonType(x, JoinAll(types).value).Some?
    decreases |types|
  {
    if |types| == 0 {
      UnknownCommon(x);
    } else {
      AgreesWithAll(x, types[1..]);
      PairsAgree(x, types[0], JoinAll(types[1..]).value);
    }
  }

  /** Without a common type, two of them already clash. */
  lemma {:induction false} SomePairClashes(types: seq<DataType>) returns (a: DataType, b: DataType)
    requires JoinAll(types).None?
    ensures Together(a, b, types) && CommonType(a, b).None?
    decreases |types|
  {
    var x, tail := types[0], types[1..];
    assert types == [x] + tail;
    if JoinAll(tail).None? {
      a, b := SomePairClashes(tail);
    } else if y :| y in tail && CommonType(x, y).None? {
      a, b := x, y;
      assert y in multiset(tail);
    } else {
      AgreesWithAll(x, tail);
    }
  }

  // ---------- when every order clashes ----------

  lemma {:induction false} ClashesToggle(types: seq<DataType>)
    requires AllClash(types)
    ensures |types| % 2 == 0 ==> Fold(Unknown, types) == Unknown
    ensures |types| % 2 == 1 ==> Fold(Unknown, types) == types[|types| - 1]
    decreases |types|
  {
    if |types| == 1 {
      UnknownCommon(types[0]);
    } else if |types| >= 2 {
      var rest := DropPair(types);
      ClashesToggle(rest);
    }
  }

  lemma DropPair(types: seq<DataType>) returns (rest: seq<DataType>)
    requires |types| >= 2 && AllClash(types)
    ensures |rest| == |types| - 2 && AllClash(rest)
    ensures Fold(Unknown, types) == Fold(Unknown, rest)
    ensures |rest| > 0 ==> rest[|rest| - 1] == types[|types| - 1]
  {
    var x, y := types[0], types[1];
    rest := types[2..];
    assert types == [x] + ([y] + rest);
    ClashRest(x, y, rest);
    FoldTwo(x, y, rest);
  }

  lemma ClashRest(x: DataType, y: DataType, tail: seq<DataType>)
    requires AllClash([x] + ([y] + tail))
    ensures AllClash(tail) && CommonType(x, y).None?
  {
    var types := [x] + ([y] + tail);
    Counts(y, tail);
    Counts(x, [y] + tail);
    assert Together(x, y, types);
    forall a, b | Together(a, b, tail) ensures CommonType(a, b).None? {
      assert Together(a, b, types);
    }
  }

  /** How often each value occurs once one more is put in front. */
  lemma Counts<T>(x: T, rest: seq<T>)
    ensures forall y :: multiset([x] + rest)[y] == multiset(rest)[y] + if y == x then 1 else 0
    ensures forall y :: y in [x] + rest <==> y == x || y in rest
    ensures forall y :: y in rest <==> multiset(rest)[y] > 0
  {
    assert multiset([x] + rest) == multiset([x]) + multiset(rest);
    forall y ensures y in rest <==> multiset(rest)[y] > 0 {
      assert y in rest <==> y in multiset(rest);
    }
  }

  lemma FoldTwo(x: DataType, y: DataType, tail: seq<DataType>)
    requires CommonType(x, y).None?
    ensures Fold(Unknown, [x] + ([y] + tail)) == Fold(Unknown, tail)
  {
    UnknownCommon(x);
    FoldHead(Unknown, x, [y] + tail);
    FoldHead(x, y, tail);
  }

  lemma FoldHead(state: DataType, x: DataType, tail: seq<DataType>)
    ensures Fold(state, [x] + tail) == Fold(Absorb(state, x), tail)
  {
    assert ([x] + tail)[1..] == tail;
  }

  lemma FoldLast(state: DataType, types: seq<DataType>, last: DataType)
    ensures Fold(state, types + [last]) == Absorb(Fold(state, types), last)
  {
    FoldConcat(state, types, [last]);
    assert [last][1..] == [];
  }

  /** `e` is no wider than `r`. */
  predicate Within(e: DataType, r: DataType) {
    CommonType(e, r) == Some(r)
  }

  lemma AbsorbedIsWithin(state: DataType, e: DataType)
    requires Absorb(state, e) != Unknown && e != Unknown
    ensures Within(e, Absorb(state, e))
  {
    CommonTypeCommutes(state, e);
    CommonTypeAssociates(e, e, state);
    SameCommon(e);
  }

  lemma {:induction false} BoundedHaveCommonType(types: seq<DataType>, r: DataType)
    requires forall e :: e in types ==> Within(e, r)
    ensures Join(JoinAll(types), Some(r)) == Some(r)
    decreases |types|
  {
    if |types| == 0 {
      UnknownCommon(r);
    } else {
      assert types[0] in types && Within(types[0], r);
      assert forall e :: e in types[1..] ==> e in types;
      BoundedHaveCommonType(types[1..], r);
      assert Join(Some(types[0]), Some(r)) == Some(r);
      JoinAssociates(Some(types[0]), JoinAll(types[1..]), Some(r));
    }
  }

  /** When no order matters but there is no common type, every order ends on a clash. */
  lemma OrderFreeClashEndsUnknown(types: seq<DataType>)
    requires OrderFree(types) && JoinAll(types).None? && Unknown !in types
    ensures Reduce(types) == Unknown
  {
    var r := Reduce(types);
    if r != Unknown {
      forall e | e in types ensures Within(e, r) {
        var rest := Extract(e, types);
        var order := rest + [e];
        assert multiset(order) == multiset(types);
        ReduceIsFold(order);
        FoldLast(Unknown, rest, e);
        AbsorbedIsWithin(Fold(Unknown, rest), e);
      }
      BoundedHaveCommonType(types, r);
    }
  }

  /** One that agrees with a second and clashes with a third makes the order matter. */
  lemma MixedTriple(a: DataType, b: DataType, c: DataType, types: seq<DataType>)
    requires OrderFree(types) && JoinAll(types).None? && Unknown !in types
    requires Together(a, b, types) && c in types
    requires CommonType(a, b).Some?
    ensures CommonType(a, c).Some?
  {
    if CommonType(a, c).None? {
      SameCommon(a);
      var w := ExtractThree(a, b, c, types);
      MoveToBack(a, b, c, w);
      OrderFreeClashEndsUnknown(types);
      SameReduction([a] + ([c] + (w + [b])), types);
      SameReduction([a] + ([b] + ([c] + w)), types);
      TwoReductions(a, b, c, w);
      UnknownCommon(b);
    }
  }

  lemma SameReduction(order: seq<DataType>, types: seq<DataType>)
    requires OrderFree(types) && multiset(order) == multiset(types)
    ensures Reduce(order) == Reduce(types)
  {
  }

  lemma TwoReductions(a: DataType, b: DataType, c: DataType, w: seq<DataType>)
    requires CommonType(a, b).Some? && CommonType(a, c).None?
    ensures Reduce([a] + ([c] + (w + [b]))) == Absorb(Reduce(w), b)
    ensures Reduce([a] + ([b] + ([c] + w))) == Reduce(w)
  {
    ReduceIsFold(w);
    ReduceIsFold([a] + ([c] + (w + [b])));
    ReduceIsFold([a] + ([b] + ([c] + w)));
    FoldTwo(a, c, w + [b]);
    FoldLast(Unknown, w, b);
    FoldThree(a, b, c, w);
  }

  lemma ExtractThree(a: DataType, b: DataType, c: DataType, types: seq<DataType>) returns (w: seq<DataType>)
    requires Together(a, b, types) && c in types && c != a && c != b
    ensures multiset([a] + ([b] + ([c] + w))) == multiset(types)
  {
    var u := Extract(a, types);
    Counts(a, u);
    StillThere(a, b, types, u);
    StillThere(a, c, types, u);
    var v := Extract(b, u);
    StillThere(b, c, u, v);
    w := Extract(c, v);
    PutInFront(b, v, [c] + w);
    PutInFront(a, u, [b] + ([c] + w));
  }

  lemma StillThere<T>(x: T, y: T, types: seq<T>, rest: seq<T>)
    requires multiset(types) == multiset([x] + rest)
    requires y in types && (x == y ==> multiset(types)[x] >= 2)
    ensures y in rest
  {
    Counts(x, rest);
    assert y in multiset(types);
    assert multiset(rest)[y] > 0;
  }

  lemma PutInFront<T>(x: T, s: seq<T>, t: seq<T>)
    requires multiset(s) == multiset(t)
    ensures multiset([x] + s) == multiset([x] + t)
  {
    assert multiset([x] + s) == multiset([x]) + multiset(s);
    assert multiset([x] + t) == multiset([x]) + multiset(t);
  }

  lemma SwapTwo<T>(x: T, y: T, s: seq<T>)
    ensures multiset([x] + ([y] + s)) == multiset([y] + ([x] + s))
  {
    assert multiset([x] + ([y] + s)) == multiset([x]) + (multiset([y]) + multiset(s));
    assert multiset([y] + ([x] + s)) == multiset([y]) + (multiset([x]) + multiset(s));
  }

  lemma MoveToBack<T>(a: T, b: T, c: T, w: seq<T>)
    ensures multiset([a] + ([c] + (w + [b]))) == multiset([a] + ([b] + ([c] + w)))
  {
    Rotated(w, b);
    PutInFront(c, w + [b], [b] + w);
    SwapTwo(c, b, w);
    PutInFront(a, [c] + (w + [b]), [b] + ([c] + w));
  }

  lemma Rotated<T>(w: seq<T>, b: T)
    ensures multiset(w + [b]) == multiset([b] + w)
  {
    assert multiset(w + [b]) == multiset(w) + multiset([b]);
    assert multiset([b] + w) == multiset([b]) + multiset(w);
  }

  lemma FoldThree(a: DataType, b: DataType, c: DataType, tail: seq<DataType>)
    requires CommonType(a, b).Some? && CommonType(a, c).None?
    ensures Fold(Unknown, [a] + ([b] + ([c] + tail))) == Fold(Unknown, tail)
  {
    CommonTypeCommutes(a, b);
    CommonTypeAssociates(b, a, c);
    UnknownCommon(a);
    FoldHead(Unknown, a, [b] + ([c] + tail));
    FoldHead(a, b, [c] + tail);
    FoldHead(CommonType(a, b).value, c, tail);
  }

  lemma OrderFreeClashIsTotal(types: seq<DataType>)
    requires OrderFree(types) && JoinAll(types).None? && Unknown !in types
    ensures AllClash(types)
  {
    var x, y := SomePairClashes(types);
    forall p, q | Together(p, q, types) ensures CommonType(p, q).None? {
      if CommonType(p, q).Some? {
        AgreeingPairSpreads(p, q, x, y, types);
      }
    }
  }

  lemma AgreeingPairSpreads(p: DataType, q: DataType, x: DataType, y: DataType, types: seq<DataType>)
    requires OrderFree(types) && JoinAll(types).None? && Unknown !in types
    requires Together(p, q, types) && Together(x, y, types)
    requires CommonType(p, q).Some?
    ensures CommonType(x, y).Some?
  {
    CommonTypeCommutes(p, q);
    CommonTypeCommutes(x, y);
    if CommonType(x, y).None? {
      SameCommon(x);
      if x == p {
        MixedTriple(p, q, y, types);
      } else if y == p {
        MixedTriple(p, q, x, types);
      } else if x == q {
        MixedTriple(q, p, y, types);
      } else {
        MixedTriple(p, q, x, types);
        CommonTypeCommutes(p, x);
        MixedTriple(x, p, y, types);
      }
    }
  }

  lemma AllClashIgnoresOrder(s: seq<DataType>, t: seq<DataType>)
    requires AllClash(s) && multiset(s) == multiset(t)
    ensures AllClash(t) && |s| == |t|
  {
    forall a, b | Together(a, b, t) ensures CommonType(a, b).None? {
      assert a in multiset(t) && b in multiset(t);
      assert Together(a, b, s);
    }
    assert |multiset(s)| == |multiset(t)|;
  }

  /**
   * The reduction is blind to the order exactly when the elements have a common type, or when no two
   * of them agree and there is an even number of them.
   */
  lemma OrderFreeExactly(types: seq<DataType>)
    requires Unknown !in types
    ensures OrderFree(types) <==> JoinAll(types).Some? || (AllClash(types) && |types| % 2 == 0)
  {
    if JoinAll(types).Some? {
      forall order: seq<DataType> | multiset(order) == multiset(types) ensures Reduce(order) == Reduce(types) {
        JoinAllIgnoresOrder(order, types);
        ReduceFindsCommonType(order);
        ReduceFindsCommonType(types);
      }
    } else if AllClash(types) && |types| % 2 == 0 {
      forall order: seq<DataType> | multiset(order) == multiset(types) ensures Reduce(order) == Reduce(types) {
        AllClashIgnoresOrder(types, order);
        ClashesToggle(order);
        ClashesToggle(types);
        ReduceIsFold(order);
        ReduceIsFold(types);
      }
    } else if OrderFree(types) {
      OrderFreeClashIsTotal(types);
      OrderFreeClashEndsUnknown(types);
      ClashesToggle(types);
      ReduceIsFold(types);
    }
  }

  // ---------- the same for the values of a list parameter ----------

  ghost predicate ListOrderFree(values: seq<ParameterValue>) {
    forall order: seq<ParameterValue> ::
      multiset(order) == multiset(values) ==> InferredType(ListValue(order)) == InferredType(ListValue(values))
  }

  lemma {:induction false} ExtractValue(v: ParameterValue, values: seq<ParameterValue>) returns (rest: seq<ParameterValue>)
    requires v in values
    ensures |values| == 1 + |rest|
    ensures multiset(values) == multiset([v] + rest)
    ensures multiset(KnownTypes(values)) == multiset(KnownTypes([v] + rest))
    decreases |values|
  {
    hide KnownTypes, InferredType, OwnType;
    var first, tail := values[0], values[1..];
    assert values == [first] + tail;
    if v == first {
      rest := tail;
    } else {
      var inner := ExtractValue(v, tail);
      rest := [first] + inner;
      PutInFront(first, tail, [v] + inner);
      SwapTwo(first, v, inner);
      SwapKnown(first, v, tail, inner);
    }
  }

  lemma SwapKnown(first: ParameterValue, v: ParameterValue, tail: seq<ParameterValue>, inner: seq<ParameterValue>)
    requires multiset(KnownTypes(tail)) == multiset(KnownTypes([v] + inner))
    ensures multiset(KnownTypes([first] + tail)) == multiset(KnownTypes([v] + ([first] + inner)))
  {
    hide KnownTypes, InferredType, OwnType;
    KnownHead(first, tail);
    KnownHead(v, inner);
    KnownHead(v, [first] + inner);
    KnownHead(first, inner);
    SwapSums(multiset(OwnType(first)), multiset(OwnType(v)), multiset(KnownTypes(inner)));
  }

  lemma SwapSums<T>(a: multiset<T>, b: multiset<T>, c: multiset<T>)
    ensures a + (b + c) == b + (a + c)
  {
  }

  lemma {:induction false} KnownTypesIgnoreOrder(s: seq<ParameterValue>, t: seq<ParameterValue>)
    requires multiset(s) == multiset(t)
    ensures multiset(KnownTypes(s)) == multiset(KnownTypes(t))
    decreases |s|
  {
    SameMembers(s, t);
    if |s| == 0 {
      assert s == t;
    } else {
      var rest := ExtractValue(s[0], t);
      TailOf(s, rest);
      KnownTypesIgnoreOrder(s[1..], rest);
      KnownHead(s[0], rest);
      KnownHead(s[0], s[1..]);
      assert s == [s[0]] + s[1..];
    }
  }

  function OwnType(v: ParameterValue): seq<DataType> {
    if InferredType(v) == Unknown then [] else [InferredType(v)]
  }

  lemma KnownHead(v: ParameterValue, rest: seq<ParameterValue>)
    ensures KnownTypes([v] + rest) == OwnType(v) + KnownTypes(rest)
    ensures multiset(KnownTypes([v] + rest)) == multiset(OwnType(v)) + multiset(KnownTypes(rest))
  {
    assert ([v] + rest)[1..] == rest;
  }

  lemma {:induction false} ValueOfType(values: seq<ParameterValue>, t: DataType) returns (v: ParameterValue)
    requires t in KnownTypes(values)
    ensures v in values && InferredType(v) == t && t != Unknown
    decreases |values|
  {
    var first, rest := InferredType(values[0]), KnownTypes(values[1..]);
    if first == t {
      v := values[0];
    } else {
      assert t in rest;
      v := ValueOfType(values[1..], t);
    }
  }

  /** Every order of the element types comes from an order of the elements. */
  lemma {:induction false} OrderOfTypes(values: seq<ParameterValue>, types: seq<DataType>) returns (order: seq<ParameterValue>)
    requires multiset(types) == multiset(KnownTypes(values))
    ensures multiset(order) == multiset(values) && KnownTypes(order) == types
    decreases |types|
  {
    SameMembers(types, KnownTypes(values));
    if |types| == 0 {
      order := values;
    } else {
      var v := ValueOfType(values, types[0]);
      var rest := ExtractValue(v, values);
      KnownHead(v, rest);
      TailOf(types, KnownTypes(rest));
      var inner := OrderOfTypes(rest, types[1..]);
      order := [v] + inner;
      KnownHead(v, inner);
      assert types == [types[0]] + types[1..];
    }
  }

  /** Inference for a list looks past the order of its elements under exactly the same condition on their types. */
  lemma ListInferenceOrderFreeExactly(values: seq<ParameterValue>)
    ensures var types := KnownTypes(values);
            ListOrderFree(values) <==> JoinAll(types).Some? || (AllClash(types) && |types| % 2 == 0)
  {
    var types := KnownTypes(values);
    OrderFreeExactly(types);
    if OrderFree(types) {
      forall order: seq<ParameterValue> | multiset(order) == multiset(values)
        ensures InferredType(ListValue(order)) == InferredType(ListValue(values))
      {
        KnownTypesIgnoreOrder(order, values);
      }
    }
    if ListOrderFree(values) {
      forall other: seq<DataType> | multiset(other) == multiset(types) ensures Reduce(other) == Reduce(types) {
        var order := OrderOfTypes(values, other);
        assert InferredType(ListValue(order)) == InferredType(ListValue(values));
      }
    }
  }

  /** With a common type, that is what a list is inferred to hold. */
  lemma ListHoldsCommonType(values: seq<ParameterValue>)
    requires JoinAll(KnownTypes(values)).Some?
    ensures InferredType(ListValue(values)) == List(JoinAll(KnownTypes(values)).value)
  {
    ReduceFindsCommonType(KnownTypes(values));
  }

  /** The order of two numbers and a text decides whether the list holds numbers. */
  lemma ClashDependsOnOrder(n: int, m: int, text: string)
    ensures InferredType(ListValue([Int64Value(n), Utf8Value(text), Int64Value(m)])) == List(Int64)
    ensures InferredType(ListValue([Int64Value(n), Int64Value(m), Utf8Value(text)])) == List(Unknown)
  {
    hide KnownTypes, Reduce, CommonType;
    KnownThree(Int64Value(n), Utf8Value(text), Int64Value(m));
    KnownThree(Int64Value(n), Int64Value(m), Utf8Value(text));
    ReduceThree(Int64, Utf8, Int64);
    ReduceThree(Int64, Int64, Utf8);
    Clashes();
  }

  lemma Clashes()
    ensures Absorb(Int64, Utf8) == Unknown == Absorb(Absorb(Int64, Int64), Utf8)
    ensures Absorb(Absorb(Int64, Utf8), Int64) == Int64
  {
  }

  lemma KnownFirst(v: ParameterValue, rest: seq<ParameterValue>)
    requires InferredType(v) != Unknown
    ensures KnownTypes([v] + rest) == [InferredType(v)] + KnownTypes(rest)
  {
    hide InferredType;
    assert ([v] + rest)[1..] == rest;
  }

  lemma KnownThree(a: ParameterValue, b: ParameterValue, c: ParameterValue)
    requires InferredType(a) != Unknown && InferredType(b) != Unknown && InferredType(c) != Unknown
    ensures KnownTypes([a, b, c]) == [InferredType(a), InferredType(b), InferredType(c)]
  {
    hide KnownTypes, InferredType;
    KnownFirst(c, []);
    KnownFirst(b, [c]);
    KnownFirst(a, [b, c]);
    NoneKnown();
    assert [a] + [b, c] == [a, b, c] && [b] + [c] == [b, c] && [c] + [] == [c];
  }

  lemma NoneKnown()
    ensures KnownTypes([]) == []
  {
  }

  lemma ReduceThree(a: DataType, b: DataType, c: DataType)
    ensures Reduce([a, b, c]) == Absorb(Absorb(a, b), c)
  {
    FoldLast(a, [b], c);
    FoldLast(a, [], b);
    assert [] + [b] == [b] && [b] + [c] == [b, c] && [a, b, c][1..] == [b, c];
  }

  // ---------- what an inferred type says about its value ----------

  /** The value can be used where this type is expected; nothing but null is known to be of an unknown type. */
  ghost predicate Holds(t: DataType, v: ParameterValue)
    decreases v
  {
    match v
    case Null => true
    case Boolean(_) => t == BooleanType
    case Int64Value(_) => t == Int64 || t == Float64
    case Float64Value(_) => t == Float64
    case Utf8Value(_) => t == Utf8
    case UuidValue(_) => t == Uuid
    case JsonValue(_) => t == Json
    case ListValue(values) => t.List? && forall i :: 0 <= i < |values| ==> Holds(t.element, values[i])
  }

  /** In the value and in every list inside it the elements have a common type. */
  ghost predicate Coherent(v: ParameterValue) {
    v.ListValue? ==>
      JoinAll(KnownTypes(v.values)).Some? && forall i :: 0 <= i < |v.values| ==> Coherent(v.values[i])
  }

  lemma {:induction false} KnownOf(values: seq<ParameterValue>, i: nat)
    requires i < |values| && InferredType(values[i]) != Unknown
    ensures InferredType(values[i]) in KnownTypes(values)
    decreases |values|
  {
    hide InferredType;
    if i > 0 { KnownOf(values[1..], i - 1); }
  }

  lemma {:induction false} JoinAllBounds(types: seq<DataType>, t: DataType)
    requires JoinAll(types).Some? && t in types
    ensures Within(t, JoinAll(types).value)
    decreases |types|
  {
    hide CommonType, JoinAll;
    var rest := Extract(t, types);
    SameCommon(t);
    JoinAssociates(Some(t), Some(t), JoinAll(rest));
  }

  lemma WithinIsTransitive(a: DataType, b: DataType, c: DataType)
    requires Within(a, b) && Within(b, c)
    ensures Within(a, c)
  {
    hide CommonType;
    CommonTypeAssociates(a, b, c);
  }

  lemma ListWithin(a: DataType, b: DataType)
    ensures Within(List(a), List(b)) <==> Within(a, b)
  {
    hide CommonType;
    ListCommon(a, b);
  }

  lemma OnlyNullIsUnknown(v: ParameterValue)
    ensures InferredType(v) == Unknown <==> v.Null?
  {
  }

  /** Types no narrower than a list type are list types. */
  lemma AboveList(a: DataType, r: DataType)
    requires Within(List(a), r)
    ensures r.List?
  {
  }

  /**
   The inferred type is principal: a coherent value can be used at exactly the types that are no narrower than
   the one inferred for it.
   */
  lemma {:induction false} InferenceIsPrincipal(v: ParameterValue, r: DataType)
    requires Coherent(v) && !v.Null?
    ensures Holds(r, v) <==> Within(InferredType(v), r)
    decreases v
  {
    if v.ListValue? {
      var types := KnownTypes(v.values);
      ReduceFindsCommonType(types);
      if r.List? {
        ListWithin(Reduce(types), r.element);
        ElementsWithin(v.values, r.element);
      } else if Within(InferredType(v), r) {
        AboveList(Reduce(types), r);
      }
    }
  }

  lemma {:induction false} ElementsWithin(values: seq<ParameterValue>, r: DataType)
    requires JoinAll(KnownTypes(values)).Some? && forall i :: 0 <= i < |values| ==> Coherent(values[i])
    ensures (forall i :: 0 <= i < |values| ==> Holds(r, values[i])) <==> Within(JoinAll(KnownTypes(values)).value, r)
    decreases values, 0
  {
    hide InferredType, KnownTypes, CommonType, Holds, Coherent, JoinAll;
    var types := KnownTypes(values);
    forall i | 0 <= i < |values| ensures values[i].Null? || (Holds(r, values[i]) <==> Within(InferredType(values[i]), r)) {
      if !values[i].Null? { InferenceIsPrincipal(values[i], r); }
    }
    if forall i :: 0 <= i < |values| ==> Holds(r, values[i]) {
      forall e | e in types ensures Within(e, r) {
        var v := ValueOfType(values, e);
        NullIsUnknown();
      }
      BoundedHaveCommonType(types, r);
    }
    if Within(JoinAll(types).value, r) {
      forall i | 0 <= i < |values| ensures Holds(r, values[i]) {
        NullHolds(r);
        if !values[i].Null? {
          OnlyNullIsUnknown(values[i]);
          KnownOf(values, i);
          JoinAllBounds(types, InferredType(values[i]));
          WithinIsTransitive(InferredType(values[i]), JoinAll(types).value, r);
        }
      }
    }
  }

  lemma NullIsUnknown()
    ensures InferredType(Null) == Unknown
  {
  }

  lemma NullHolds(r: DataType)
    ensures Holds(r, Null)
  {
  }

  /** A value can be used at the type inferred for it if and only if it is coherent. */
  lemma {:induction false} InferenceIsSoundExactly(v: ParameterValue)
    ensures Holds(InferredType(v), v) <==> Coherent(v)
    decreases v
  {
    if Coherent(v) && !v.Null? {
      InferenceIsPrincipal(v, InferredType(v));
      SameCommon(InferredType(v));
    }
    if v.ListValue? && Holds(InferredType(v), v) {
      UsableIsCoherent(InferredType(v), v);
    }
  }

  /** A value that can be used at some type at all is coherent. */
  lemma {:induction false} UsableIsCoherent(r: DataType, v: ParameterValue)
    requires Holds(r, v)
    ensures Coherent(v)
    decreases v
  {
    if v.ListValue? {
      forall i | 0 <= i < |v.values| ensures Coherent(v.values[i]) {
        UsableIsCoherent(r.element, v.values[i]);
      }
      var types := KnownTypes(v.values);
      forall e | e in types ensures Within(e, r.element) {
        var w := ValueOfType(v.values, e);
        InferenceIsPrincipal(w, r.element);
      }
      BoundedHaveCommonType(types, r.element);
    }
  }
}
