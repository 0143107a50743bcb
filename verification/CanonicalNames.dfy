/** Canonical JSON text is a faithful name for a value up to the order of object keys. */
module CanonicalNames {
  import opened Sequences
  import opened Wrappers
  import opened JsonValue
  import opened NumberScanner
  import opened Decimal
  import opened CanonicalJson
  import opened JsonReader

  // ---------- reading back what was printed ----------

  lemma ReadEscaped(c: char, rest: string)
    requires c == '"' || c == '\\' || c as int < 0x20
    ensures |EscapeChar(c)| >= 2 && EscapeChar(c)[0] == '\\'
    ensures ReadEscape((EscapeChar(c) + rest)[1..]) == Some((c, |EscapeChar(c)| - 1))
  {
    var e := EscapeChar(c);
    var after := (e + rest)[1..];
    assert after[0] == e[1];
    if |e| == 6 {
      assert after[1..5] == [after[1], after[2], after[3], after[4]] == ['0', '0', e[4], e[5]];
      assert c as int == c as int / 16 * 16 + c as int % 16;
    }
  }

  lemma PlainChar(c: char)
    requires c != '"' && c != '\\' && c as int >= 0x20
    ensures EscapeChar(c) == [c]
  {
  }

  lemma {:induction false} ReadEscapedString(s: string, rest: string)
    ensures ReadChars(Escape(s) + ("\"" + rest)) == Some((s, rest))
    decreases |s|
  {
    hide EscapeChar, ReadEscape;
    var close := "\"" + rest;
    if |s| == 0 {
      assert Escape(s) + close == close && close[1..] == rest;
    } else {
      var e, tail := EscapeChar(s[0]), Escape(s[1..]) + close;
      var text := Escape(s) + close;
      assert text == e + tail;
      ReadEscapedString(s[1..], rest);
      if s[0] == '"' || s[0] == '\\' || s[0] as int < 0x20 {
        ReadEscaped(s[0], tail);
        assert (e + tail)[|e|..] == tail;
      } else {
        PlainChar(s[0]);
        assert (e + tail)[1..] == tail;
      }
      assert [s[0]] + s[1..] == s;
    }
  }

  predicate Delimited(rest: string) {
    rest == "" || rest[0] == ',' || rest[0] == ']' || rest[0] == '}'
  }

  lemma NumberChars(text: string)
    requires IsNumber(text)
    ensures text != "" && (text[0] == '-' || IsDigit(text[0]))
    ensures forall k :: 0 <= k < |text| ==> IsNumberChar(text[k])
  {
    var a: nat, b: nat :| NumberParts(text, a, b);
    PartsAreForced(text, a, b);
    RunDigits(text, AfterMinus(text), a);
    ExponentChars(text, b);
    forall k | 0 <= k < |text| ensures IsNumberChar(text[k]) {
      if k < AfterMinus(text) {
      } else if k < a {
        assert IsDigit(text[k]);
      } else if k < b {
        assert k == a || IsDigit(text[k]);
      }
    }
  }

  lemma ExponentChars(text: string, b: nat)
    requires b <= |text| && IsExp(text[b..])
    ensures forall k :: b <= k < |text| ==> IsNumberChar(text[k])
  {
    ExpAt(text, b);
    if b < |text| {
      var i := ExpStart(text, b);
      assert MaximalRun(text, i, |text|);
      assert forall k :: i <= k < |text| ==> IsDigit(text[k]);
    }
  }

  lemma ReadNumber(text: string, rest: string)
    requires IsNumber(text) && Delimited(rest)
    ensures ReadValue(text + rest) == Some((Number(text), rest))
  {
    NumberChars(text);
    var s := text + rest;
    assert s[0] == text[0];
    assert forall k :: 0 <= k < |text| ==> s[k] == text[k];
    assert rest != "" ==> s[|text|] == rest[0];
    assert s[..|text|] == text && s[|text|..] == rest;
  }

  lemma ReadString(s: string, rest: string)
    ensures (Quote(s) + rest)[0] == '"'
    ensures ReadChars((Quote(s) + rest)[1..]) == Some((s, rest))
  {
    assert (Quote(s) + rest)[1..] == Escape(s) + ("\"" + rest);
    ReadEscapedString(s, rest);
  }

  lemma PrintStart(v: Json)
    requires NumbersOk(v)
    ensures Print(v) != "" && Print(v)[0] != ']'
  {
    if v.Number? { NumberChars(v.text); }
  }

  lemma ItemsStart(items: seq<Json>, rest: string)
    requires |items| > 0 && NumbersOk(items[0])
    ensures (PrintItems(items) + rest)[0] != ']'
  {
    PrintStart(items[0]);
    assert PrintItems(items)[0] == Print(items[0])[0];
  }

  lemma MembersStart(members: seq<Member>, rest: string)
    requires |members| > 0
    ensures (PrintMembers(members) + rest)[0] == '"'
  {
  }

  lemma ReadAtom(v: Json, rest: string)
    requires v.Null? || v.Bool?
    ensures ReadValue(Print(v) + rest) == Some((v, rest))
  {
    var p := Print(v);
    assert (p + rest)[|p|..] == rest && p <= p + rest;
    assert (p + rest)[0] == p[0];
  }

  /** Reading a printed value gives the value back and leaves the text after it unread. */
  lemma {:induction false} ReadPrinted(v: Json, rest: string)
    requires NumbersOk(v) && Delimited(rest)
    ensures ReadValue(Print(v) + rest) == Some((v, rest))
    decreases v, 0
  {
    hide ReadValue, ReadItems, ReadMembers, Print, PrintItems, PrintMembers, ReadChars, Escape, IsNumber;
    match v
    case Null => ReadAtom(v, rest);
    case Bool(_) => ReadAtom(v, rest);
    case Number(text) => ReadPrintedNumber(text, rest);
    case String(s) => ReadPrintedString(s, rest);
    case Array(items) =>
      if |items| > 0 { ReadPrintedItems(items, rest); }
      ReadPrintedArray(items, rest);
    case Object(members) =>
      if |members| > 0 { ReadPrintedMembers(members, rest); }
      ReadPrintedObject(members, rest);
  }

  lemma ReadPrintedNumber(text: string, rest: string)
    requires IsNumber(text) && Delimited(rest)
    ensures ReadValue(Print(Number(text)) + rest) == Some((Number(text), rest))
  {
    hide ReadValue, IsNumber;
    ReadNumber(text, rest);
  }

  lemma ReadPrintedString(s: string, rest: string)
    ensures ReadValue(Print(String(s)) + rest) == Some((String(s), rest))
  {
    hide ReadChars, Escape;
    ReadString(s, rest);
  }

  lemma ReadPrintedArray(items: seq<Json>, rest: string)
    requires |items| > 0 ==> NumbersOk(items[0]) && ReadItems(PrintItems(items) + rest) == Some((items, rest))
    ensures ReadValue(Print(Array(items)) + rest) == Some((Array(items), rest))
  {
    hide ReadItems, PrintItems;
    if |items| == 0 {
      assert ("[]" + rest)[2..] == rest;
    } else {
      ItemsStart(items, rest);
      var body := PrintItems(items) + rest;
      assert Print(Array(items)) + rest == "[" + body && ("[" + body)[1..] == body;
    }
  }

  lemma ReadPrintedObject(members: seq<Member>, rest: string)
    requires |members| > 0 ==> ReadMembers(PrintMembers(members) + rest) == Some((members, rest))
    ensures ReadValue(Print(Object(members)) + rest) == Some((Object(members), rest))
  {
    hide ReadMembers, PrintMembers;
    if |members| == 0 {
      assert ("{}" + rest)[2..] == rest;
    } else {
      MembersStart(members, rest);
      var body := PrintMembers(members) + rest;
      assert Print(Object(members)) + rest == "{" + body && ("{" + body)[1..] == body;
    }
  }

  lemma {:induction false} ReadPrintedItems(items: seq<Json>, rest: string)
    requires |items| > 0 && forall i :: 0 <= i < |items| ==> NumbersOk(items[i])
    ensures ReadItems(PrintItems(items) + rest) == Some((items, rest))
    decreases items, 0
  {
    hide Print, ReadValue;
    if |items| == 1 {
      Regroup(Print(items[0]), "]", rest);
      ReadPrinted(items[0], "]" + rest);
      assert ("]" + rest)[1..] == rest && items == [items[0]];
    } else {
      var tail := PrintItems(items[1..]);
      Regroup(Print(items[0]), "," + tail, rest);
      Regroup(",", tail, rest);
      ReadPrinted(items[0], "," + (tail + rest));
      assert ("," + (tail + rest))[1..] == tail + rest;
      ReadPrintedItems(items[1..], rest);
      assert items == [items[0]] + items[1..];
    }
  }

  lemma {:induction false} ReadPrintedMember(m: Member, rest: string)
    requires NumbersOk(m.value) && Delimited(rest)
    ensures ReadMember(PrintMember(m) + rest) == Some((m, rest))
    decreases m, 0
  {
    var tail := Print(m.value) + rest;
    assert PrintMember(m) + rest == Quote(m.key) + (":" + tail);
    ReadString(m.key, ":" + tail);
    assert (":" + tail)[1..] == tail;
    ReadPrinted(m.value, rest);
  }

  lemma {:induction false} ReadPrintedMembers(members: seq<Member>, rest: string)
    requires |members| > 0 && forall i :: 0 <= i < |members| ==> NumbersOk(members[i].value)
    ensures ReadMembers(PrintMembers(members) + rest) == Some((members, rest))
    decreases members, 0
  {
    hide PrintMember, ReadMember;
    if |members| == 1 {
      Regroup(PrintMember(members[0]), "}", rest);
      ReadPrintedMember(members[0], "}" + rest);
      assert ("}" + rest)[1..] == rest && members == [members[0]];
    } else {
      var tail := PrintMembers(members[1..]);
      Regroup(PrintMember(members[0]), "," + tail, rest);
      Regroup(",", tail, rest);
      ReadPrintedMember(members[0], "," + (tail + rest));
      assert ("," + (tail + rest))[1..] == tail + rest;
      ReadPrintedMembers(members[1..], rest);
      assert members == [members[0]] + members[1..];
    }
  }

  // ---------- key order ----------

  ghost predicate Ascending(keys: seq<string>) {
    forall i, j :: 0 <= i < j < |keys| ==> Before(keys[i], keys[j])
  }

  ghost predicate Distinct(keys: seq<string>) {
    forall i, j :: 0 <= i < j < |keys| ==> keys[i] != keys[j]
  }

  lemma {:induction false} BeforeIsTotal(a: string, b: string)
    ensures Before(a, b) || Before(b, a) || a == b
    ensures !(Before(a, b) && Before(b, a)) && !Before(a, a)
    decreases |a|
  {
    if a != "" && b != "" {
      BeforeIsTotal(a[1..], b[1..]);
      BeforeIsTotal(a[1..], a[1..]);
      assert a == [a[0]] + a[1..] && b == [b[0]] + b[1..];
    } else if a != "" {
      BeforeIsTotal(a[1..], a[1..]);
    }
  }

  lemma {:induction false} BeforeIsTransitive(a: string, b: string, c: string)
    requires Before(a, b) && Before(b, c)
    ensures Before(a, c)
    decreases |a|
  {
    if a != "" && a[0] == b[0] == c[0] {
      BeforeIsTransitive(a[1..], b[1..], c[1..]);
    }
  }

  lemma {:induction false} InsertKeepsAscending(key: string, keys: seq<string>)
    requires Ascending(keys) && key !in keys
    ensures Ascending(InsertKey(key, keys))
  {
    if keys == [] {
    } else if !Before(keys[0], key) {
      BeforeIsTotal(keys[0], key);
      assert Before(key, keys[0]);
      forall j | 0 < j < |keys| ensures Before(key, keys[j]) {
        BeforeIsTransitive(key, keys[0], keys[j]);
      }
    } else {
      var rest := InsertKey(key, keys[1..]);
      InsertKeepsAscending(key, keys[1..]);
      forall j | 0 <= j < |rest| ensures Before(keys[0], rest[j]) {
        assert rest[j] in rest;
      }
    }
  }

  lemma {:induction false} SortKeysAscends(keys: seq<string>)
    requires Distinct(keys)
    ensures Ascending(SortKeys(keys))
  {
    if keys != [] {
      SortKeysAscends(keys[1..]);
      InsertKeepsAscending(keys[0], SortKeys(keys[1..]));
    }
  }

  /** A set of keys has one ascending listing. */
  lemma {:induction false} AscendingIsUnique(a: seq<string>, b: seq<string>)
    requires Ascending(a) && Ascending(b) && forall k :: k in a <==> k in b
    ensures a == b
    decreases |a|
  {
    if a != [] {
      assert a[0] in b;
    }
    if b != [] {
      assert b[0] in a;
    }
    if a != [] && b != [] {
      BeforeIsTotal(a[0], b[0]);
      forall k ensures k in a[1..] <==> k in b[1..] {
        BeforeIsTotal(a[0], a[0]);
        assert k in a <==> k in b;
        assert k in a[1..] ==> Before(a[0], k);
        assert k in b[1..] ==> Before(b[0], k);
      }
      AscendingIsUnique(a[1..], b[1..]);
      assert a == [a[0]] + a[1..] && b == [b[0]] + b[1..];
    }
  }

  // ---------- equality up to key order ----------

  /** Equal except for the order in which the members of objects are listed. */
  ghost predicate Same(a: Json, b: Json)
    decreases a
  {
    match (a, b)
    case (Array(x), Array(y)) => |x| == |y| && forall i :: 0 <= i < |x| ==> Same(x[i], y[i])
    case (Object(x), Object(y)) =>
      (forall i :: 0 <= i < |x| ==> HasKey(y, x[i].key) && Same(x[i].value, Lookup(y, x[i].key))) &&
      forall j :: 0 <= j < |y| ==> HasKey(x, y[j].key)
    case (Null, Null) => true
    case (Bool(x), Bool(y)) => x == y
    case (Number(x), Number(y)) => x == y
    case (String(x), String(y)) => x == y
    case _ => false
  }

  lemma KeysOf(members: seq<Member>)
    ensures forall k :: k in Keys(members) <==> HasKey(members, k)
    ensures forall k :: k in SortKeys(Keys(members)) <==> HasKey(members, k)
    ensures DistinctKeys(members) ==> Ascending(SortKeys(Keys(members)))
  {
    forall k ensures k in Keys(members) <==> HasKey(members, k) {
      if HasKey(members, k) {
        var i :| 0 <= i < |members| && members[i].key == k;
        assert Keys(members)[i] == k;
      }
    }
    if DistinctKeys(members) {
      SortKeysAscends(Keys(members));
    }
  }

  lemma SortedMember(members: seq<Member>, i: nat)
    requires i < |members|
    ensures SortKeys(Keys(members))[i] in Keys(members) && HasKey(members, SortKeys(Keys(members))[i])
    ensures SortedMembers(members)[i]
         == Member(SortKeys(Keys(members))[i], Sorted(Lookup(members, SortKeys(Keys(members))[i])))
  {
    SortedKeysAreKeys(members);
    assert SortKeys(Keys(members))[i] in SortKeys(Keys(members));
  }

  lemma {:induction false} SameSortsEqual(a: Json, b: Json)
    requires WellFormed(a) && WellFormed(b) && Same(a, b)
    ensures Sorted(a) == Sorted(b)
    decreases a
  {
    hide SortKeys, Keys, Lookup, Picked, InsertKey;
    match (a, b)
    case (Array(x), Array(y)) =>
      forall i | 0 <= i < |x| ensures SortedItems(x)[i] == SortedItems(y)[i] { SameSortsEqual(x[i], y[i]); }
      assert SortedItems(x) == SortedItems(y);
    case (Object(x), Object(y)) =>
      KeysOf(x);
      KeysOf(y);
      var keys := SortKeys(Keys(x));
      AscendingIsUnique(keys, SortKeys(Keys(y)));
      forall i | 0 <= i < |keys| ensures SortedMembers(x)[i] == SortedMembers(y)[i] {
        SortedMember(x, i);
        SortedMember(y, i);
        var j :| 0 <= j < |x| && x[j].key == keys[i];
        LookupIsUnique(x, j);
        LookupWellFormed(y, keys[i]);
        SameSortsEqual(x[j].value, Lookup(y, keys[i]));
      }
      assert SortedMembers(x) == SortedMembers(y);
    case _ =>
  }

  lemma LookupWellFormed(members: seq<Member>, key: string)
    requires HasKey(members, key)
    requires forall i :: 0 <= i < |members| ==> WellFormed(members[i].value)
    ensures WellFormed(Lookup(members, key))
  {
    var i :| 0 <= i < |members| && members[i] == Member(key, Lookup(members, key));
    assert WellFormed(members[i].value);
  }

  lemma {:induction false} EqualSortsSame(a: Json, b: Json)
    requires WellFormed(a) && WellFormed(b) && Sorted(a) == Sorted(b)
    ensures Same(a, b)
    decreases a
  {
    match (a, b)
    case (Array(x), Array(y)) =>
      forall i | 0 <= i < |x| ensures Same(x[i], y[i]) {
        assert SortedItems(x)[i] == SortedItems(y)[i];
        EqualSortsSame(x[i], y[i]);
      }
    case (Object(x), Object(y)) => EqualSortedMembers(x, y);
    case _ =>
  }

  lemma EqualKeyLists(x: seq<Member>, y: seq<Member>)
    requires SortedMembers(x) == SortedMembers(y)
    ensures SortKeys(Keys(x)) == SortKeys(Keys(y))
  {
    forall i | 0 <= i < |x| ensures SortKeys(Keys(x))[i] == SortKeys(Keys(y))[i] {
      SortedMember(x, i);
      SortedMember(y, i);
    }
  }

  lemma {:induction false} EqualSortedMembers(x: seq<Member>, y: seq<Member>)
    requires WellFormed(Object(x)) && WellFormed(Object(y)) && SortedMembers(x) == SortedMembers(y)
    ensures Same(Object(x), Object(y))
    decreases x
  {
    KeysOf(x);
    KeysOf(y);
    EqualKeyLists(x, y);
    forall i | 0 <= i < |x| ensures HasKey(y, x[i].key) && Same(x[i].value, Lookup(y, x[i].key)) {
      assert HasKey(x, x[i].key);
      assert x[i].key in SortKeys(Keys(y));
      var k :| 0 <= k < |x| && SortKeys(Keys(x))[k] == x[i].key;
      SortedMember(x, k);
      SortedMember(y, k);
      LookupIsUnique(x, i);
      LookupWellFormed(y, x[i].key);
      EqualSortsSame(x[i].value, Lookup(y, x[i].key));
    }
    forall j | 0 <= j < |y| ensures HasKey(x, y[j].key) {
      assert HasKey(y, y[j].key);
      assert y[j].key in SortKeys(Keys(x));
    }
  }

  // ---------- the result ----------

  lemma {:induction false} SortedNumbersOk(v: Json)
    requires NumbersOk(v)
    ensures NumbersOk(Sorted(v))
    decreases v
  {
    match v
    case Array(items) =>
      forall i | 0 <= i < |items| ensures NumbersOk(SortedItems(items)[i]) { SortedNumbersOk(items[i]); }
    case Object(members) =>
      forall i | 0 <= i < |members| ensures NumbersOk(SortedMembers(members)[i].value) {
        SortedMember(members, i);
        var key := SortKeys(Keys(members))[i];
        var j :| 0 <= j < |members| && members[j] == Member(key, Lookup(members, key));
        SortedNumbersOk(members[j].value);
      }
    case _ =>
  }

  /** Reading canonical text recovers the value with sorted keys, and nothing after it is consumed. */
  lemma ReadCanonical(v: Json, rest: string)
    requires NumbersOk(v) && Delimited(rest)
    ensures ReadValue(Print(Sorted(v)) + rest) == Some((Sorted(v), rest))
  {
    SortedNumbersOk(v);
    ReadPrinted(Sorted(v), rest);
  }

  /** Two values print to the same canonical text exactly when they are equal up to object key order. */
  lemma CanonicalTextIsFaithful(a: Json, b: Json)
    requires WellFormed(a) && WellFormed(b) && NumbersOk(a) && NumbersOk(b)
    ensures Print(Sorted(a)) == Print(Sorted(b)) <==> Same(a, b)
  {
    if Print(Sorted(a)) == Print(Sorted(b)) {
      ReadCanonical(a, "");
      ReadCanonical(b, "");
      EqualSortsSame(a, b);
    }
    if Same(a, b) {
      SameSortsEqual(a, b);
    }
  }

  /** The canonical text of a value names its canonical form, so printing again changes nothing. */
  lemma CanonicalFormIsFixed(v: Json)
    requires WellFormed(v)
    ensures Sorted(Sorted(v)) == Sorted(v)
  {
    SortedIsSame(v);
    SortedWellFormed(v);
    SameSortsEqual(Sorted(v), v);
  }

  lemma {:induction false} SortedWellFormed(v: Json)
    requires WellFormed(v)
    ensures WellFormed(Sorted(v))
    decreases v
  {
    match v
    case Array(items) =>
      forall i | 0 <= i < |items| ensures WellFormed(SortedItems(items)[i]) { SortedWellFormed(items[i]); }
    case Object(members) =>
      KeysOf(members);
      forall i | 0 <= i < |members| ensures WellFormed(SortedMembers(members)[i].value) {
        SortedMember(members, i);
        var key := SortKeys(Keys(members))[i];
        var j :| 0 <= j < |members| && members[j] == Member(key, Lookup(members, key));
        SortedWellFormed(members[j].value);
      }
      forall i, j | 0 <= i < j < |members| ensures SortedMembers(members)[i].key != SortedMembers(members)[j].key {
        SortedMember(members, i);
        SortedMember(members, j);
        BeforeIsTotal(SortKeys(Keys(members))[i], SortKeys(Keys(members))[i]);
      }
    case _ =>
  }

  lemma {:induction false} SortedIsSame(v: Json)
    requires WellFormed(v)
    ensures Same(Sorted(v), v)
    decreases v
  {
    match v
    case Array(items) =>
      forall i | 0 <= i < |items| ensures Same(SortedItems(items)[i], items[i]) { SortedIsSame(items[i]); }
    case Object(members) =>
      KeysOf(members);
      var sorted := SortedMembers(members);
      forall i | 0 <= i < |sorted|
        ensures HasKey(members, sorted[i].key) && Same(sorted[i].value, Lookup(members, sorted[i].key))
      {
        SortedMember(members, i);
        var key := SortKeys(Keys(members))[i];
        var j :| 0 <= j < |members| && members[j] == Member(key, Lookup(members, key));
        SortedIsSame(members[j].value);
      }
      forall j | 0 <= j < |members| ensures HasKey(sorted, members[j].key) {
        assert HasKey(members, members[j].key);
        var i :| 0 <= i < |members| && SortKeys(Keys(members))[i] == members[j].key;
        SortedMember(members, i);
      }
    case _ =>
  }
}
