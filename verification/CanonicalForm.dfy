/** Which text the canonical one is: keys in byte order at every depth, and every escape the shortest there is. */
module CanonicalForm {
  import opened Wrappers
  import opened JsonValue
  import opened JsonReader
  import opened CanonicalJson
  import opened CanonicalNames
  import Utf8

  // ---------- key order by the first difference ----------

  /** They agree on the first `n` characters, and there `a` ends or has the lesser code point. */
  predicate DifferAt(a: string, b: string, n: nat) {
    n <= |a| && n < |b| && a[..n] == b[..n] && (n < |a| ==> (a[n] as int) < (b[n] as int))
  }

  ghost predicate Precedes(a: string, b: string) {
    exists n: nat :: DifferAt(a, b, n)
  }

  lemma SlicesAgree<T>(a: seq<T>, b: seq<T>, n: nat)
    requires n <= |a| && n <= |b| && a[..n] == b[..n]
    ensures forall k :: 0 <= k < n ==> a[k] == b[k]
  {
    assert forall k :: 0 <= k < n ==> a[k] == a[..n][k] && b[k] == b[..n][k];
  }

  lemma {:induction false} FirstDifference(a: string, b: string)
    ensures Before(a, b) <==> Precedes(a, b)
    decreases |a|
  {
    if a == "" || b == "" || a[0] != b[0] {
      assert a == "" && b != "" ==> DifferAt(a, b, 0);
      assert a != "" && b != "" && a[0] < b[0] ==> DifferAt(a, b, 0);
      forall n: nat | DifferAt(a, b, n) ensures n == 0 {
        SlicesAgree(a, b, n);
      }
    } else {
      FirstDifference(a[1..], b[1..]);
      forall n: nat | DifferAt(a[1..], b[1..], n) ensures DifferAt(a, b, n + 1) {
        assert a[..n + 1] == [a[0]] + a[1..][..n] && b[..n + 1] == [b[0]] + b[1..][..n];
      }
      forall n: nat | DifferAt(a, b, n) ensures n > 0 && DifferAt(a[1..], b[1..], n - 1) {
        assert a[1..][..n - 1] == a[..n][1..] && b[1..][..n - 1] == b[..n][1..];
      }
    }
  }

  // ---------- the same order on bytes ----------

  predicate BytesDifferAt(a: seq<Utf8.Byte>, b: seq<Utf8.Byte>, n: nat) {
    n <= |a| && n < |b| && a[..n] == b[..n] && (n < |a| ==> a[n] < b[n])
  }

  /** The order of `str`: by the first byte of the UTF-8 text in which two strings differ. */
  ghost predicate BytesPrecede(a: seq<Utf8.Byte>, b: seq<Utf8.Byte>) {
    exists n: nat :: BytesDifferAt(a, b, n)
  }

  predicate ByteDecides(x: seq<Utf8.Byte>, y: seq<Utf8.Byte>, n: nat) {
    n < |x| && n < |y| && x[..n] == y[..n] && x[n] < y[n]
  }

  /** Of two characters the lesser has the lesser byte where their encodings first differ. */
  lemma CharsDiffer(c: char, d: char) returns (n: nat)
    requires (c as int) < (d as int)
    ensures ByteDecides(Utf8.EncodeChar(c), Utf8.EncodeChar(d), n)
  {
    hide Utf8.EncodeChar;
    if Utf8.CharLen(c) < Utf8.CharLen(d) {
      n := 0;
      WiderIsGreater(c, d);
    } else if Utf8.CharLen(c) <= 2 {
      n := NarrowChars(c, d);
    } else if Utf8.CharLen(c) == 3 {
      n := ThreeByteChars(c, d);
    } else {
      n := FourByteChars(c, d);
    }
  }

  lemma WiderIsGreater(c: char, d: char)
    requires Utf8.CharLen(c) < Utf8.CharLen(d)
    ensures ByteDecides(Utf8.EncodeChar(c), Utf8.EncodeChar(d), 0)
  {
  }

  lemma NarrowChars(c: char, d: char) returns (n: nat)
    requires (c as int) < (d as int) && Utf8.CharLen(c) == Utf8.CharLen(d) <= 2
    ensures ByteDecides(Utf8.EncodeChar(c), Utf8.EncodeChar(d), n)
  {
    n := if Utf8.CharLen(c) == 1 || c as int / 0x40 != d as int / 0x40 then 0 else 1;
  }

  lemma ThreeByteChars(c: char, d: char) returns (n: nat)
    requires (c as int) < (d as int) && Utf8.CharLen(c) == Utf8.CharLen(d) == 3
    ensures ByteDecides(Utf8.EncodeChar(c), Utf8.EncodeChar(d), n)
  {
    var a, b := c as int, d as int;
    Utf8.Digits(a);
    Utf8.Digits(b);
    n := if a / 0x1000 != b / 0x1000 then 0 else if a / 0x40 % 0x40 != b / 0x40 % 0x40 then 1 else 2;
  }

  lemma FourByteChars(c: char, d: char) returns (n: nat)
    requires (c as int) < (d as int) && Utf8.CharLen(c) == Utf8.CharLen(d) == 4
    ensures ByteDecides(Utf8.EncodeChar(c), Utf8.EncodeChar(d), n)
  {
    var a, b := c as int, d as int;
    Utf8.Digits(a);
    Utf8.Digits(b);
    n := if a / 0x4_0000 != b / 0x4_0000 then 0
         else if a / 0x1000 % 0x40 != b / 0x1000 % 0x40 then 1
         else if a / 0x40 % 0x40 != b / 0x40 % 0x40 then 2 else 3;
  }

  lemma {:induction false} EncodedDifference(a: string, b: string)
    requires Before(a, b)
    ensures BytesPrecede(Utf8.Encode(a), Utf8.Encode(b))
    decreases |a|
  {
    if a == "" {
      assert BytesDifferAt(Utf8.Encode(a), Utf8.Encode(b), 0);
    } else {
      var x, y := Utf8.EncodeChar(a[0]), Utf8.EncodeChar(b[0]);
      var u, v := Utf8.Encode(a[1..]), Utf8.Encode(b[1..]);
      if a[0] == b[0] {
        EncodedDifference(a[1..], b[1..]);
        var n: nat :| BytesDifferAt(u, v, n);
        assert (x + u)[..|x| + n] == x + u[..n] && (x + v)[..|x| + n] == x + v[..n];
        assert BytesDifferAt(x + u, x + v, |x| + n);
      } else {
        var n := CharsDiffer(a[0], b[0]);
        assert (x + u)[..n] == x[..n] && (y + v)[..n] == y[..n];
        assert BytesDifferAt(x + u, y + v, n);
      }
    }
  }

  lemma BytesPrecedeOneWay(a: seq<Utf8.Byte>, b: seq<Utf8.Byte>)
    ensures !(BytesPrecede(a, b) && BytesPrecede(b, a)) && !BytesPrecede(a, a)
  {
    forall n: nat, m: nat | BytesDifferAt(a, b, n) && BytesDifferAt(b, a, m) ensures false {
      SlicesAgree(a, b, n);
      SlicesAgree(b, a, m);
    }
  }

  /** Sorting `str` keys byte by byte sorts them by code point. */
  lemma ByteOrderIsCodePointOrder(a: string, b: string)
    ensures BytesPrecede(Utf8.Encode(a), Utf8.Encode(b)) <==> Precedes(a, b)
  {
    FirstDifference(a, b);
    BeforeIsTotal(a, b);
    if Before(a, b) { EncodedDifference(a, b); }
    if Before(b, a) { EncodedDifference(b, a); }
    BytesPrecedeOneWay(Utf8.Encode(a), Utf8.Encode(b));
  }

  // ---------- the canonical value ----------

  /** In every object of the value, at every depth, each key precedes the next ones byte by byte. */
  ghost predicate KeysAscend(v: Json) {
    match v
    case Array(items) => forall i :: 0 <= i < |items| ==> KeysAscend(items[i])
    case Object(members) =>
      (forall i, j :: 0 <= i < j < |members| ==>
         BytesPrecede(Utf8.Encode(members[i].key), Utf8.Encode(members[j].key))) &&
      forall i :: 0 <= i < |members| ==> KeysAscend(members[i].value)
    case _ => true
  }

  lemma BeforeIsByteOrder(a: string, b: string)
    ensures Before(a, b) <==> BytesPrecede(Utf8.Encode(a), Utf8.Encode(b))
  {
    FirstDifference(a, b);
    ByteOrderIsCodePointOrder(a, b);
  }

  lemma {:induction false} CanonicalKeysAscend(v: Json)
    requires WellFormed(v)
    ensures KeysAscend(Sorted(v))
    decreases v
  {
    hide SortKeys, Keys, Lookup, Picked, InsertKey, Before, BytesPrecede;
    match v
    case Array(items) =>
      forall i | 0 <= i < |items| ensures KeysAscend(SortedItems(items)[i]) { CanonicalKeysAscend(items[i]); }
    case Object(members) =>
      KeysOf(members);
      var keys, sorted := SortKeys(Keys(members)), SortedMembers(members);
      forall i | 0 <= i < |sorted| ensures sorted[i].key == keys[i] && KeysAscend(sorted[i].value) {
        SortedMember(members, i);
        var j :| 0 <= j < |members| && members[j] == Member(keys[i], Lookup(members, keys[i]));
        CanonicalKeysAscend(members[j].value);
      }
      forall i, j | 0 <= i < j < |sorted|
        ensures BytesPrecede(Utf8.Encode(sorted[i].key), Utf8.Encode(sorted[j].key))
      {
        assert Before(keys[i], keys[j]);
        BeforeIsByteOrder(keys[i], keys[j]);
      }
    case _ =>
  }

  lemma {:induction false} AscendingIsSorted(w: Json)
    requires KeysAscend(w)
    ensures WellFormed(w) && Sorted(w) == w
    decreases w
  {
    hide SortKeys, Lookup, Picked, InsertKey, Before, BytesPrecede;
    match w
    case Array(items) =>
      forall i | 0 <= i < |items| ensures WellFormed(items[i]) && SortedItems(items)[i] == items[i] {
        AscendingIsSorted(items[i]);
      }
      assert SortedItems(items) == items;
    case Object(members) =>
      forall i, j | 0 <= i < j < |members| ensures Before(members[i].key, members[j].key) {
        BeforeIsByteOrder(members[i].key, members[j].key);
      }
      forall i, j | 0 <= i < j < |members| ensures members[i].key != members[j].key {
        BeforeIsTotal(members[i].key, members[j].key);
      }
      KeysOf(members);
      AscendingIsUnique(Keys(members), SortKeys(Keys(members)));
      forall i | 0 <= i < |members| ensures WellFormed(members[i].value) && SortedMembers(members)[i] == members[i] {
        SortedMember(members, i);
        LookupIsUnique(members, i);
        AscendingIsSorted(members[i].value);
      }
      assert SortedMembers(members) == members;
    case _ =>
  }

  /** The canonical value is the one value with ascending keys that equals the given one up to key order. */
  lemma CanonicalFormExactly(v: Json, w: Json)
    requires WellFormed(v)
    ensures w == Sorted(v) <==> KeysAscend(w) && Same(w, v)
  {
    CanonicalKeysAscend(v);
    SortedIsSame(v);
    if KeysAscend(w) && Same(w, v) {
      AscendingIsSorted(w);
      SameSortsEqual(w, v);
    }
  }

  // ---------- the canonical escapes ----------

  /** The text is one way to write this character inside a string literal. */
  predicate Writes(text: string, c: char) {
    ReadChars(text + "\"") == Some(([c], ""))
  }

  predicate NoUpperCase(s: string) {
    forall i :: 0 <= i < |s| ==> !('A' <= s[i] <= 'Z')
  }

  predicate IsPlain(c: char) {
    c != '"' && c != '\\' && c as int >= 0x20
  }

  /** The character a backslash and this letter stand for. */
  function ShortForm(letter: char): Option<char> {
    match ReadEscape([letter])
    case None => None
    case Some((c, _)) => Some(c)
  }

  lemma {:induction false} NothingRead(s: string)
    requires ReadChars(s) == Some(("", ""))
    ensures s == "\""
  {
    assert s[1..] == "";
    assert s == [s[0]] + s[1..];
  }

  /** There are three ways: the character itself, a backslash and a letter, or four hexadecimal digits. */
  lemma WaysToWrite(text: string, c: char)
    requires Writes(text, c)
    ensures (IsPlain(c) && text == [c]) ||
            (|text| == 2 && text[0] == '\\' && ShortForm(text[1]) == Some(c)) ||
            (|text| == 6 && text[0] == '\\' && text[1] == 'u' && FourHex(text[2..6]) == Some(c as int))
  {
    var s := text + "\"";
    if s[0] == '\\' {
      var (d, width) := ReadEscape(s[1..]).value;
      assert d == c by { OneRead(d, s[1 + width..], c); }
      OneRead(d, s[1 + width..], c);
      NothingRead(s[1 + width..]);
      assert |text| == 1 + width;
      if width == 1 {
        assert s[1..][0] == text[1] == [text[1]][0];
      } else {
        assert s[1..][1..5] == text[2..6];
      }
    } else {
      OneRead(s[0], s[1..], c);
      NothingRead(s[1..]);
      assert text == [s[0]];
    }
  }

  lemma OneRead(d: char, rest: string, c: char)
    requires Prepend(d, ReadChars(rest)) == Some(([c], ""))
    ensures d == c && ReadChars(rest) == Some(("", ""))
  {
    var (text, end) := ReadChars(rest).value;
    assert ([d] + text)[0] == d && |[d] + text| == 1;
  }

  lemma LowerHex(a: char)
    requires HexValue(a).Some? && !('A' <= a <= 'Z')
    ensures a == HexDigit(HexValue(a).value)
  {
  }

  lemma HexOfControl(h: string, c: char)
    requires |h| == 4 && FourHex(h) == Some(c as int) && NoUpperCase(h) && c as int < 0x20
    ensures h == ['0', '0', HexDigit(c as int / 16), HexDigit(c as int % 16)]
  {
    assert HexValue(h[0]).Some? && HexValue(h[1]).Some? && HexValue(h[2]).Some? && HexValue(h[3]).Some?;
    LowerHex(h[0]);
    LowerHex(h[1]);
    LowerHex(h[2]);
    LowerHex(h[3]);
    assert h == [h[0], h[1], h[2], h[3]];
  }

  lemma EscapeWrites(c: char)
    ensures Writes(EscapeChar(c), c)
  {
    hide EscapeChar, ReadChars;
    assert Escape([c]) == EscapeChar(c) by {
      assert [c][1..] == "" && EscapeChar(c) + "" == EscapeChar(c);
    }
    ReadEscapedString([c], "");
    assert "\"" + "" == "\"";
  }

  lemma PlainIsShortest(c: char)
    ensures IsPlain(c) <==> |EscapeChar(c)| == 1
    ensures IsPlain(c) ==> EscapeChar(c) == [c]
  {
  }

  lemma ShortFormIsEscape(c: char, letter: char)
    requires ShortForm(letter) == Some(c) && !IsPlain(c)
    ensures EscapeChar(c) == ['\\', letter]
  {
  }

  lemma LongFormIsEscape(c: char, h: string)
    requires |h| == 4 && FourHex(h) == Some(c as int)
    ensures |EscapeChar(c)| <= 6
    ensures |EscapeChar(c)| == 6 && NoUpperCase(h) ==> EscapeChar(c) == ['\\', 'u'] + h
  {
    hide FourHex;
    if |EscapeChar(c)| == 6 && NoUpperCase(h) {
      HexOfControl(h, c);
      assert h == ['0', '0', h[2], h[3]];
    }
  }

  /**
   Each character is written as itself or in its shortest escape, with lower-case digits: no text that
   reads back as the character is shorter, and none of the same length is another.
   */
  lemma EscapeIsShortest(c: char, text: string)
    ensures Writes(EscapeChar(c), c)
    ensures Writes(text, c) ==> |EscapeChar(c)| <= |text|
    ensures Writes(text, c) && |text| == |EscapeChar(c)| && (|text| == 6 ==> NoUpperCase(text)) ==> text == EscapeChar(c)
  {
    hide EscapeChar, Writes, FourHex, ShortForm, IsPlain;
    EscapeWrites(c);
    PlainIsShortest(c);
    if Writes(text, c) {
      WaysToWrite(text, c);
      if |text| == 2 && text[0] == '\\' && ShortForm(text[1]) == Some(c) {
        if !IsPlain(c) { ShortFormIsEscape(c, text[1]); }
        assert text == [text[0], text[1]];
      } else if |text| == 6 {
        LongFormIsEscape(c, text[2..6]);
        assert NoUpperCase(text) ==> NoUpperCase(text[2..6]);
        assert text == [text[0], text[1]] + text[2..6];
      }
    }
  }
}
