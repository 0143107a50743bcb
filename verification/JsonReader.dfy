/**
 A reader for the JSON grammar of RFC 8259, without insignificant whitespace and surrogate
 escapes, neither of which the canonical printer emits. It stops at the end of the value.
 */
module JsonReader {
  import opened Wrappers
  import opened JsonValue
  import opened NumberScanner
  import opened Decimal

  function HexValue(c: char): (v: Option<int>)
    ensures v.Some? ==> 0 <= v.value < 16
  {
    if '0' <= c <= '9' then Some(c as int - '0' as int)
    else if 'a' <= c <= 'f' then Some(c as int - 'a' as int + 10)
    else if 'A' <= c <= 'F' then Some(c as int - 'A' as int + 10)
    else None
  }

  function FourHex(s: string): (v: Option<int>)
    requires |s| == 4
    ensures v.Some? ==> 0 <= v.value < 0x1_0000
  {
    match (HexValue(s[0]), HexValue(s[1]), HexValue(s[2]), HexValue(s[3]))
    case (Some(a), Some(b), Some(c), Some(d)) => Some(((a * 16 + b) * 16 + c) * 16 + d)
    case _ => None
  }

  /** The character an escape stands for, from the text after its backslash, and how long the escape is. */
  function ReadEscape(s: string): (r: Option<(char, nat)>)
    ensures r.Some? ==> 1 <= r.value.1 <= |s|
  {
    if |s| == 0 then None
    else if s[0] == '"' || s[0] == '\\' || s[0] == '/' then Some((s[0], 1))
    else if s[0] == 'b' then Some(('\U{8}', 1))
    else if s[0] == 'f' then Some(('\U{C}', 1))
    else if s[0] == 'n' then Some(('\n', 1))
    else if s[0] == 'r' then Some(('\r', 1))
    else if s[0] == 't' then Some(('\t', 1))
    else if s[0] == 'u' && |s| >= 5 then
      match FourHex(s[1..5])
      case None => None
      case Some(n) => if 0xD800 <= n < 0xE000 then None else Some((n as char, 5))
    else None
  }

  /** The characters of a string literal up to its closing quote. */
  function ReadChars(s: string): (r: Option<(string, string)>)
    ensures r.Some? ==> |r.value.1| < |s|
    decreases |s|
  {
    if |s| == 0 || s[0] as int < 0x20 then None
    else if s[0] == '"' then Some(("", s[1..]))
    else if s[0] == '\\' then
      match ReadEscape(s[1..])
      case None => None
      case Some((c, width)) => Prepend(c, ReadChars(s[1 + width..]))
    else Prepend(s[0], ReadChars(s[1..]))
  }

  function Prepend(c: char, r: Option<(string, string)>): Option<(string, string)> {
    match r
    case None => None
    case Some((text, rest)) => Some(([c] + text, rest))
  }

  predicate IsNumberChar(c: char) {
    IsDigit(c) || c == '-' || c == '+' || c == '.' || c == 'e' || c == 'E'
  }

  function NumberEnd(s: string): (i: nat)
    ensures i <= |s|
    ensures forall k :: 0 <= k < i ==> IsNumberChar(s[k])
    ensures i < |s| ==> !IsNumberChar(s[i])
  {
    if |s| > 0 && IsNumberChar(s[0]) then 1 + NumberEnd(s[1..]) else 0
  }

  ghost function ReadValue(s: string): (r: Option<(Json, string)>)
    ensures r.Some? ==> |r.value.1| < |s|
    decreases |s|, 0
  {
    if |s| == 0 then None
    else if s[0] == '"' then
      match ReadChars(s[1..])
      case None => None
      case Some((text, rest)) => Some((String(text), rest))
    else if s[0] == '[' then
      if |s| > 1 && s[1] == ']' then Some((Array([]), s[2..]))
      else
        match ReadItems(s[1..])
        case None => None
        case Some((items, rest)) => Some((Array(items), rest))
    else if s[0] == '{' then
      if |s| > 1 && s[1] == '}' then Some((Object([]), s[2..]))
      else
        match ReadMembers(s[1..])
        case None => None
        case Some((members, rest)) => Some((Object(members), rest))
    else if "null" <= s then Some((Null, s[4..]))
    else if "true" <= s then Some((Bool(true), s[4..]))
    else if "false" <= s then Some((Bool(false), s[5..]))
    else if NumberEnd(s) > 0 && IsNumber(s[..NumberEnd(s)]) then Some((Number(s[..NumberEnd(s)]), s[NumberEnd(s)..]))
    else None
  }

  /** One or more values separated by commas, up to and with the closing bracket. */
  ghost function ReadItems(s: string): (r: Option<(seq<Json>, string)>)
    ensures r.Some? ==> |r.value.1| < |s|
    decreases |s|, 1
  {
    match ReadValue(s)
    case None => None
    case Some((item, rest)) =>
      if |rest| > 0 && rest[0] == ']' then Some(([item], rest[1..]))
      else if |rest| > 0 && rest[0] == ',' then
        match ReadItems(rest[1..])
        case None => None
        case Some((items, end)) => Some(([item] + items, end))
      else None
  }

  ghost function ReadMember(s: string): (r: Option<(Member, string)>)
    ensures r.Some? ==> |r.value.1| < |s|
    decreases |s|, 1
  {
    if |s| == 0 || s[0] != '"' then None
    else
      match ReadChars(s[1..])
      case None => None
      case Some((key, rest)) =>
        if |rest| == 0 || rest[0] != ':' then None
        else
          match ReadValue(rest[1..])
          case None => None
          case Some((value, end)) => Some((Member(key, value), end))
  }

  ghost function ReadMembers(s: string): (r: Option<(seq<Member>, string)>)
    ensures r.Some? ==> |r.value.1| < |s|
    decreases |s|, 2
  {
    match ReadMember(s)
    case None => None
    case Some((member, rest)) =>
      if |rest| > 0 && rest[0] == '}' then Some(([member], rest[1..]))
      else if |rest| > 0 && rest[0] == ',' then
        match ReadMembers(rest[1..])
        case None => None
        case Some((members, end)) => Some(([member] + members, end))
      else None
  }
}
