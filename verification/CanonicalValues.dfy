/**
 Canonical text under serde_json's own equality, which compares floats by value: of the texts it prints
 for numbers only `0.0` and `-0.0` are equal and different.
 */
module CanonicalValues {
  import opened JsonValue
  import opened NumberScanner
  import opened CanonicalJson
  import opened CanonicalNames

  const ZERO := "0.0"
  const NEGATIVE_ZERO := "-0.0"

  predicate IsFloatZero(text: string) {
    text == ZERO || text == NEGATIVE_ZERO
  }

  predicate SameNumber(x: string, y: string) {
    x == y || (IsFloatZero(x) && IsFloatZero(y))
  }

  /** `PartialEq` of `serde_json::Value`. */
  ghost predicate Equal(a: Json, b: Json)
    decreases a
  {
    match (a, b)
    case (Array(x), Array(y)) => |x| == |y| && forall i :: 0 <= i < |x| ==> Equal(x[i], y[i])
    case (Object(x), Object(y)) =>
      (forall i :: 0 <= i < |x| ==> HasKey(y, x[i].key) && Equal(x[i].value, Lookup(y, x[i].key))) &&
      forall j :: 0 <= j < |y| ==> HasKey(x, y[j].key)
    case (Null, Null) => true
    case (Bool(x), Bool(y)) => x == y
    case (Number(x), Number(y)) => SameNumber(x, y)
    case (String(x), String(y)) => x == y
    case _ => false
  }

  /** A float zero, of either sign, occurs in it. */
  ghost predicate HasFloatZero(v: Json) {
    match v
    case Number(text) => IsFloatZero(text)
    case Array(items) => exists i :: 0 <= i < |items| && HasFloatZero(items[i])
    case Object(members) => exists i :: 0 <= i < |members| && HasFloatZero(members[i].value)
    case _ => false
  }

  lemma {:induction false} SameIsEqual(a: Json, b: Json)
    requires Same(a, b)
    ensures Equal(a, b)
    decreases a
  {
    match (a, b)
    case (Array(x), Array(y)) => forall i | 0 <= i < |x| ensures Equal(x[i], y[i]) { SameIsEqual(x[i], y[i]); }
    case (Object(x), Object(y)) =>
      forall i | 0 <= i < |x| ensures HasKey(y, x[i].key) && Equal(x[i].value, Lookup(y, x[i].key)) {
        SameIsEqual(x[i].value, Lookup(y, x[i].key));
      }
    case _ =>
  }

  lemma {:induction false} EqualWithoutZerosIsSame(a: Json, b: Json)
    requires Equal(a, b) && !HasFloatZero(a)
    ensures Same(a, b)
    decreases a
  {
    match (a, b)
    case (Array(x), Array(y)) => forall i | 0 <= i < |x| ensures Same(x[i], y[i]) { EqualWithoutZerosIsSame(x[i], y[i]); }
    case (Object(x), Object(y)) =>
      forall i | 0 <= i < |x| ensures HasKey(y, x[i].key) && Same(x[i].value, Lookup(y, x[i].key)) {
        EqualWithoutZerosIsSame(x[i].value, Lookup(y, x[i].key));
      }
    case _ =>
  }

  // ---------- the value with the sign of every float zero flipped ----------

  function Flip(v: Json): Json
    decreases v
  {
    match v
    case Number(text) => Number(if text == ZERO then NEGATIVE_ZERO else if text == NEGATIVE_ZERO then ZERO else text)
    case Array(items) => Array(seq(|items|, i requires 0 <= i < |items| => Flip(items[i])))
    case Object(members) =>
      Object(seq(|members|, i requires 0 <= i < |members| => Member(members[i].key, Flip(members[i].value))))
    case _ => v
  }

  /** A zero, a point and a zero, behind what may be a sign. */
  lemma PointZeroIsNumber(s: string)
    requires var m := AfterMinus(s); |s| == m + 3 && s[m] == '0' && s[m + 1] == '.' && s[m + 2] == '0'
    ensures IsNumber(s)
  {
    var m := AfterMinus(s);
    assert s[m..m + 1] == ['0'] && s[m + 1..m + 3] == ['.', '0'] && ['.', '0'][1..] == ['0'] && s[m + 3..] == [];
    assert IsInt(['0']) && IsFrac(['.', '0']) && IsExp([]);
    assert NumberParts(s, m + 1, m + 3);
  }

  lemma ZerosAreNumbers()
    ensures IsNumber(ZERO) && IsNumber(NEGATIVE_ZERO)
  {
    hide IsNumber;
    PointZeroIsNumber(ZERO);
    PointZeroIsNumber(NEGATIVE_ZERO);
  }

  lemma {:induction false} FlipIsOrdinary(v: Json)
    requires WellFormed(v) && NumbersOk(v)
    ensures WellFormed(Flip(v)) && NumbersOk(Flip(v))
    decreases v
  {
    hide IsNumber;
    match v
    case Number(_) => ZerosAreNumbers();
    case Array(items) => forall i | 0 <= i < |items| { FlipIsOrdinary(items[i]); }
    case Object(members) => forall i | 0 <= i < |members| { FlipIsOrdinary(members[i].value); }
    case _ =>
  }

  /** In an object with distinct keys, a member's flipped value is found under its key. */
  lemma FlippedMember(members: seq<Member>, i: nat)
    requires DistinctKeys(members) && i < |members|
    ensures var flipped := Flip(Object(members)).members;
            HasKey(flipped, members[i].key) && Lookup(flipped, members[i].key) == Flip(members[i].value)
  {
    var flipped := Flip(Object(members)).members;
    assert flipped[i].key == members[i].key && DistinctKeys(flipped);
    LookupIsUnique(flipped, i);
  }

  lemma {:induction false} FlipIsEqual(v: Json)
    requires WellFormed(v)
    ensures Equal(v, Flip(v))
    decreases v
  {
    match v
    case Array(items) => forall i | 0 <= i < |items| { FlipIsEqual(items[i]); }
    case Object(members) =>
      var flipped := Flip(v).members;
      forall i | 0 <= i < |members|
        ensures HasKey(flipped, members[i].key) && Equal(members[i].value, Lookup(flipped, members[i].key))
      {
        FlippedMember(members, i);
        FlipIsEqual(members[i].value);
      }
      forall j | 0 <= j < |flipped| ensures HasKey(members, flipped[j].key) { assert members[j].key == flipped[j].key; }
    case _ =>
  }

  lemma {:induction false} FlipPrintsDifferently(v: Json)
    requires WellFormed(v) && HasFloatZero(v)
    ensures !Same(v, Flip(v))
    decreases v
  {
    match v
    case Array(items) =>
      var i :| 0 <= i < |items| && HasFloatZero(items[i]);
      FlipPrintsDifferently(items[i]);
    case Object(members) =>
      var i :| 0 <= i < |members| && HasFloatZero(members[i].value);
      FlippedMember(members, i);
      FlipPrintsDifferently(members[i].value);
    case Number(_) =>
  }

  /** Every value equal to this one has its canonical text. */
  ghost predicate TextOfItsValue(v: Json) {
    forall other :: WellFormed(other) && NumbersOk(other) && Equal(v, other) ==> Print(Sorted(other)) == Print(Sorted(v))
  }

  /** Values with one text are equal; equal values have one text exactly when no float zero occurs in them. */
  lemma EqualValuesPrintAlike(v: Json)
    requires WellFormed(v) && NumbersOk(v)
    ensures forall other :: WellFormed(other) && NumbersOk(other) && Print(Sorted(other)) == Print(Sorted(v)) ==> Equal(v, other)
    ensures TextOfItsValue(v) <==> !HasFloatZero(v)
  {
    hide Print, Sorted, NumbersOk, WellFormed, Same, Equal;
    forall other | WellFormed(other) && NumbersOk(other) && Print(Sorted(other)) == Print(Sorted(v)) ensures Equal(v, other) {
      CanonicalTextIsFaithful(v, other);
      SameIsEqual(v, other);
    }
    if HasFloatZero(v) {
      FlipIsOrdinary(v);
      FlipIsEqual(v);
      FlipPrintsDifferently(v);
      CanonicalTextIsFaithful(v, Flip(v));
    } else {
      forall other | WellFormed(other) && NumbersOk(other) && Equal(v, other) ensures Print(Sorted(other)) == Print(Sorted(v)) {
        EqualWithoutZerosIsSame(v, other);
        CanonicalTextIsFaithful(v, other);
      }
    }
  }
}
