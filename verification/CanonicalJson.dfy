/** The canonical JSON printer that bundle content addresses rest on (canonical.rs). */
module CanonicalJson {
  import opened JsonValue
  import opened NumberScanner

  // ---------- string literals ----------

  function HexDigit(d: int): (c: char)
    requires 0 <= d < 16
  {
    if d < 10 then (d + '0' as int) as char else (d - 10 + 'a' as int) as char
  }

  /** serde_json's escaping: the short forms, `\u00xx` for other control characters, the rest verbatim. */
  function EscapeChar(c: char): string {
    if c == '"' then "\\\""
    else if c == '\\' then "\\\\"
    else if c == '\U{8}' then "\\b"
    else if c == '\U{C}' then "\\f"
    else if c == '\n' then "\\n"
    else if c == '\r' then "\\r"
    else if c == '\t' then "\\t"
    else if c as int < 0x20 then ['\\', 'u', '0', '0', HexDigit(c as int / 16), HexDigit(c as int % 16)]
    else [c]
  }

  function Escape(s: string): string {
    if |s| == 0 then "" else EscapeChar(s[0]) + Escape(s[1..])
  }

  function Quote(s: string): string {
    "\"" + Escape(s) + "\""
  }

  // ---------- key order ----------

  /** `str`'s order: byte by byte, which for UTF-8 is character by character. */
  predicate Before(a: string, b: string) {
    b != "" && (a == "" || a[0] < b[0] || (a[0] == b[0] && Before(a[1..], b[1..])))
  }

  function InsertKey(key: string, keys: seq<string>): (r: seq<string>)
    ensures |r| == |keys| + 1
    ensures forall k :: k in r <==> k == key || k in keys
  {
    if keys == [] || !Before(keys[0], key) then [key] + keys else [keys[0]] + InsertKey(key, keys[1..])
  }

  /** `sort_unstable` on keys; distinct keys leave it one result. */
  function SortKeys(keys: seq<string>): (r: seq<string>)
    ensures |r| == |keys|
    ensures forall k :: k in r <==> k in keys
  {
    if keys == [] then [] else InsertKey(keys[0], SortKeys(keys[1..]))
  }

  function Keys(members: seq<Member>): (keys: seq<string>)
    ensures |keys| == |members| && forall i :: 0 <= i < |keys| ==> keys[i] == members[i].key
  {
    seq(|members|, i requires 0 <= i < |members| => members[i].key)
  }

  lemma SortedKeysAreKeys(members: seq<Member>)
    ensures forall i :: 0 <= i < |SortKeys(Keys(members))| ==> HasKey(members, SortKeys(Keys(members))[i])
  {
    var keys := SortKeys(Keys(members));
    forall i | 0 <= i < |keys| ensures HasKey(members, keys[i]) {
      assert keys[i] in Keys(members);
    }
  }

  // ---------- the canonical value and its text ----------

  predicate WellFormed(v: Json) {
    match v
    case Array(items) => forall i :: 0 <= i < |items| ==> WellFormed(items[i])
    case Object(members) => DistinctKeys(members) && forall i :: 0 <= i < |members| ==> WellFormed(members[i].value)
    case _ => true
  }

  /** Every number carries a text of the RFC 8259 number production, as serde_json's numbers do. */
  ghost predicate NumbersOk(v: Json) {
    match v
    case Number(text) => IsNumber(text)
    case Array(items) => forall i :: 0 <= i < |items| ==> NumbersOk(items[i])
    case Object(members) => forall i :: 0 <= i < |members| ==> NumbersOk(members[i].value)
    case _ => true
  }

  /** The value with the members of every object in key order. */
  function Sorted(v: Json): Json
    decreases v, 0
  {
    match v
    case Array(items) => Array(SortedItems(items))
    case Object(members) => Object(SortedMembers(members))
    case _ => v
  }

  function SortedItems(items: seq<Json>): (r: seq<Json>)
    ensures |r| == |items|
    ensures forall i :: 0 <= i < |items| ==> r[i] == Sorted(items[i])
    decreases items, 0
  {
    if items == [] then [] else [Sorted(items[0])] + SortedItems(items[1..])
  }

  function SortedMembers(members: seq<Member>): (r: seq<Member>)
    ensures |r| == |members|
    decreases members, |members| + 1
  {
    SortedKeysAreKeys(members);
    Picked(members, SortKeys(Keys(members)))
  }

  function Picked(members: seq<Member>, keys: seq<string>): (r: seq<Member>)
    requires forall i :: 0 <= i < |keys| ==> HasKey(members, keys[i])
    ensures |r| == |keys|
    ensures forall i :: 0 <= i < |keys| ==> r[i] == Member(keys[i], Sorted(Lookup(members, keys[i])))
    decreases members, |keys|
  {
    if keys == [] then []
    else [Member(keys[0], Sorted(Lookup(members, keys[0])))] + Picked(members, keys[1..])
  }

  function Print(v: Json): string
    decreases v, 0
  {
    match v
    case Null => "null"
    case Bool(b) => if b then "true" else "false"
    case Number(text) => text
    case String(s) => Quote(s)
    case Array(items) => if |items| == 0 then "[]" else "[" + PrintItems(items)
    case Object(members) => if |members| == 0 then "{}" else "{" + PrintMembers(members)
  }

  /** Items separated by commas, with the closing bracket. */
  function PrintItems(items: seq<Json>): string
    requires |items| > 0
    decreases items, 0
  {
    Print(items[0]) + (if |items| == 1 then "]" else "," + PrintItems(items[1..]))
  }

  function PrintMember(m: Member): string
    decreases m, 0
  {
    Quote(m.key) + (":" + Print(m.value))
  }

  function PrintMembers(members: seq<Member>): string
    requires |members| > 0
    decreases members, 0
  {
    PrintMember(members[0]) + (if |members| == 1 then "}" else "," + PrintMembers(members[1..]))
  }

  // ---------- the printer ----------

  class TextBuffer {
    var text: string

    constructor ()
      ensures text == ""
    {
      text := "";
    }

    method PushStr(s: string)
      modifies this
      ensures text == old(text) + s
    {
      text := text + s;
    }
  }

  /** What is still to be written once the first `i` items are. */
  ghost function ItemsLeft(items: seq<Json>, i: nat): string
    requires i <= |items|
  {
    if i == |items| then "]" else (if i > 0 then "," else "") + PrintItems(items[i..])
  }

  ghost function MembersLeft(members: seq<Member>, i: nat): string
    requires i <= |members|
  {
    if i == |members| then "}" else (if i > 0 then "," else "") + PrintMembers(members[i..])
  }

  lemma ItemsStep(items: seq<Json>, i: nat)
    requires i < |items|
    ensures ItemsLeft(items, i) == (if i > 0 then "," else "") + (Print(items[i]) + ItemsLeft(items, i + 1))
  {
    assert items[i..][0] == items[i] && items[i..][1..] == items[i + 1..];
  }

  lemma ArrayText(items: seq<Json>)
    ensures Print(Array(items)) == "[" + ItemsLeft(items, 0) && ItemsLeft(items, |items|) == "]"
  {
    hide PrintItems;
    assert items[0..] == items;
  }

  lemma MembersStep(members: seq<Member>, i: nat)
    requires i < |members|
    ensures MembersLeft(members, i) == (if i > 0 then "," else "") + (PrintMember(members[i]) + MembersLeft(members, i + 1))
  {
    assert members[i..][0] == members[i] && members[i..][1..] == members[i + 1..];
  }

  lemma Shift(a: string, b: string, c: string, d: string)
    ensures a + (b + (c + d)) == ((a + b) + c) + d
  {
  }

  method WriteCanonical(value: Json, out: TextBuffer)
    modifies out
    ensures out.text == old(out.text) + Print(Sorted(value))
    decreases value, 1
  {
    match value
    case Null => out.PushStr("null");
    case Bool(b) => out.PushStr(if b then "true" else "false");
    case Number(text) => out.PushStr(text);
    case String(s) => out.PushStr(Quote(s));
    case Array(items) => WriteArray(items, out);
    case Object(members) => WriteObject(members, out);
  }

  method WriteArray(items: seq<Json>, out: TextBuffer)
    modifies out
    ensures out.text == old(out.text) + Print(Array(SortedItems(items)))
    decreases items, 0
  {
    hide Print, PrintItems, ItemsLeft, Sorted;
    ghost var sorted := SortedItems(items);
    ghost var start := out.text;
    ArrayText(sorted);
    out.PushStr("[");
    for i := 0 to |items|
      invariant out.text + ItemsLeft(sorted, i) == start + "[" + ItemsLeft(sorted, 0)
    {
      ItemsStep(sorted, i);
      Shift(out.text, if i > 0 then "," else "", Print(sorted[i]), ItemsLeft(sorted, i + 1));
      if i > 0 {
        out.PushStr(",");
      }
      WriteCanonical(items[i], out);
    }
    out.PushStr("]");
  }

  method WriteObject(members: seq<Member>, out: TextBuffer)
    modifies out
    ensures out.text == old(out.text) + Print(Object(SortedMembers(members)))
    decreases members, 2
  {
    SortedKeysAreKeys(members);
    var keys := SortKeys(Keys(members));
    ghost var start := out.text;
    out.PushStr("{");
    WriteMembers(members, keys, out);
    ghost var sorted := SortedMembers(members);
    assert sorted[0..] == sorted;
    assert Print(Object(sorted)) == "{" + MembersLeft(sorted, 0);
  }

  method WriteMembers(members: seq<Member>, keys: seq<string>, out: TextBuffer)
    requires forall i :: 0 <= i < |keys| ==> HasKey(members, keys[i])
    modifies out
    ensures out.text == old(out.text) + MembersLeft(Picked(members, keys), 0)
    decreases members, 1
  {
    hide Print, PrintMember, PrintMembers, Picked, Sorted;
    ghost var sorted := Picked(members, keys);
    ghost var goal := out.text + MembersLeft(sorted, 0);
    for i := 0 to |keys|
      invariant out.text + MembersLeft(sorted, i) == goal
    {
      MembersStep(sorted, i);
      Shift(out.text, if i > 0 then "," else "", PrintMember(sorted[i]), MembersLeft(sorted, i + 1));
      if i > 0 {
        out.PushStr(",");
      }
      WriteMember(members, keys[i], out);
    }
    out.PushStr("}");
  }

  method WriteMember(members: seq<Member>, key: string, out: TextBuffer)
    requires HasKey(members, key)
    modifies out
    ensures out.text == old(out.text) + PrintMember(Member(key, Sorted(Lookup(members, key))))
    decreases members, 0
  {
    ghost var start := out.text;
    out.PushStr(Quote(key));
    out.PushStr(":");
    WriteCanonical(Lookup(members, key), out);
    assert out.text == start + (Quote(key) + (":" + Print(Sorted(Lookup(members, key)))));
  }

  method CanonicalJsonString(value: Json) returns (text: string)
    ensures text == Print(Sorted(value))
  {
    var out := new TextBuffer();
    WriteCanonical(value, out);
    text := out.text;
  }
}
