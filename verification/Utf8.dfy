/** UTF-8 as `String::into_bytes` writes it and `std::str::from_utf8` reads it back. */
module Utf8 {
  import opened Wrappers

  type Byte = b: int | 0 <= b < 256

  const BOM: seq<Byte> := [0xEF, 0xBB, 0xBF]

  predicate IsScalar(n: int) {
    0 <= n < 0xD800 || 0xE000 <= n < 0x11_0000
  }

  predicate IsContinuation(b: Byte) {
    0x80 <= b < 0xC0
  }

  /** `char::len_utf8` */
  function CharLen(c: char): nat {
    var n := c as int;
    if n < 0x80 then 1 else if n < 0x800 then 2 else if n < 0x1_0000 then 3 else 4
  }

  function EncodeChar(c: char): (b: seq<Byte>)
    ensures |b| == CharLen(c)
  {
    var n := c as int;
    if n < 0x80 then [n]
    else if n < 0x800 then [0xC0 + n / 0x40, 0x80 + n % 0x40]
    else if n < 0x1_0000 then [0xE0 + n / 0x1000, 0x80 + n / 0x40 % 0x40, 0x80 + n % 0x40]
    else [0xF0 + n / 0x4_0000, 0x80 + n / 0x1000 % 0x40, 0x80 + n / 0x40 % 0x40, 0x80 + n % 0x40]
  }

  function Encode(s: string): (b: seq<Byte>)
    ensures |s| <= |b| <= 4 * |s|
  {
    if s == "" then [] else EncodeChar(s[0]) + Encode(s[1..])
  }

  /** The scalar value the first byte announces, with its width; overlong forms and surrogates are rejected. */
  function DecodeChar(b: seq<Byte>): (r: Option<(char, nat)>)
    ensures r.Some? ==> 1 <= r.value.1 <= |b|
  {
    if |b| == 0 then None
    else if b[0] < 0x80 then Some((b[0] as char, 1))
    else if 0xC0 <= b[0] < 0xE0 && |b| >= 2 && IsContinuation(b[1]) then
      Scalar(Low(b[0], 0xC0) * 0x40 + Low(b[1], 0x80), 0x80, 2)
    else if 0xE0 <= b[0] < 0xF0 && |b| >= 3 && IsContinuation(b[1]) && IsContinuation(b[2]) then
      Scalar(Low(b[0], 0xE0) * 0x1000 + Low(b[1], 0x80) * 0x40 + Low(b[2], 0x80), 0x800, 3)
    else if 0xF0 <= b[0] < 0xF8 && |b| >= 4 && IsContinuation(b[1]) && IsContinuation(b[2]) && IsContinuation(b[3]) then
      Scalar(Low(b[0], 0xF0) * 0x4_0000 + Low(b[1], 0x80) * 0x1000 + Low(b[2], 0x80) * 0x40 + Low(b[3], 0x80), 0x1_0000, 4)
    else None
  }

  function Low(b: Byte, tag: int): int {
    b as int - tag
  }

  function Scalar(n: int, least: int, width: nat): Option<(char, nat)> {
    if n >= least && IsScalar(n) then Some((n as char, width)) else None
  }

  function Decode(b: seq<Byte>): Option<string> {
    if b == [] then Some("")
    else
      match DecodeChar(b)
      case None => None
      case Some((c, width)) =>
        match Decode(b[width..])
        case None => None
        case Some(rest) => Some([c] + rest)
  }

  lemma DecodeEncodedChar(c: char, rest: seq<Byte>)
    ensures DecodeChar(EncodeChar(c) + rest) == Some((c, |EncodeChar(c)|))
  {
    var n := c as int;
    var b := EncodeChar(c) + rest;
    if n < 0x80 {
    } else if n < 0x800 {
      assert b[0] == 0xC0 + n / 0x40 && b[1] == 0x80 + n % 0x40;
      assert DecodeChar(b) == Scalar(n, 0x80, 2);
    } else if n < 0x1_0000 {
      Digits(n);
      assert b[0] == 0xE0 + n / 0x1000 && b[1] == 0x80 + n / 0x40 % 0x40 && b[2] == 0x80 + n % 0x40;
      assert DecodeChar(b) == Scalar(n, 0x800, 3);
    } else {
      Digits(n);
      assert b[0] == 0xF0 + n / 0x4_0000 && b[1] == 0x80 + n / 0x1000 % 0x40;
      assert b[2] == 0x80 + n / 0x40 % 0x40 && b[3] == 0x80 + n % 0x40;
      assert DecodeChar(b) == Scalar(n, 0x1_0000, 4);
    }
  }

  lemma Digits(n: nat)
    ensures n == n / 0x1000 * 0x1000 + n / 0x40 % 0x40 * 0x40 + n % 0x40
    ensures n == n / 0x4_0000 * 0x4_0000 + n / 0x1000 % 0x40 * 0x1000 + n / 0x40 % 0x40 * 0x40 + n % 0x40
  {
  }

  lemma {:induction false} RoundTrip(s: string)
    ensures Decode(Encode(s)) == Some(s)
  {
    if s == "" {
    } else {
      DecodeEncodedChar(s[0], Encode(s[1..]));
      RoundTrip(s[1..]);
      var head := EncodeChar(s[0]);
      assert (head + Encode(s[1..]))[|head|..] == Encode(s[1..]);
      assert s == [s[0]] + s[1..];
    }
  }

  lemma EncodeHead(s: string)
    requires s != ""
    ensures Encode(s) == EncodeChar(s[0]) + Encode(s[1..])
  {
  }

  lemma {:induction false} EncodeConcat(s: string, t: string)
    ensures Encode(s + t) == Encode(s) + Encode(t)
    decreases |s|
  {
    if |s| == 0 {
      assert s + t == t && Encode(s) == [];
    } else {
      EncodeConcat(s[1..], t);
      EncodeHead(s);
      EncodeHead(s + t);
      Reassociate(s, t, EncodeChar(s[0]), Encode(s[1..]), Encode(t));
    }
  }

  lemma Reassociate(s: string, t: string, head: seq<Byte>, middle: seq<Byte>, tail: seq<Byte>)
    requires s != ""
    ensures (s + t)[0] == s[0] && (s + t)[1..] == s[1..] + t
    ensures head + (middle + tail) == (head + middle) + tail
  {
  }

  /** Only a leading U+FEFF puts the byte order mark at the front of the bytes. */
  lemma BomIsFirstChar(s: string)
    ensures BOM <= Encode(s) <==> s != "" && s[0] == '\U{FEFF}'
  {
    if s != "" {
      var b := Encode(s);
      DecodeEncodedChar(s[0], Encode(s[1..]));
      if BOM <= b {
        assert b[0] == 0xEF && b[1] == 0xBB && b[2] == 0xBF;
      }
    }
  }

  predicate Ascii(s: string) {
    forall i :: 0 <= i < |s| ==> s[i] as int < 0x80
  }

  /** A text has as many bytes as characters exactly when it is ASCII. */
  lemma {:induction false} OneByteEach(s: string)
    ensures |Encode(s)| == |s| <==> Ascii(s)
  {
    if s == "" {
    } else {
      OneByteEach(s[1..]);
      assert s == [s[0]] + s[1..];
      assert Ascii(s) <==> s[0] as int < 0x80 && Ascii(s[1..]);
    }
  }

  lemma JoinedDigits(a: nat, b: nat, c: nat, d: nat)
    requires b < 0x40 && c < 0x40 && d < 0x40
    ensures (a * 0x40 + b) / 0x40 == a && (a * 0x40 + b) % 0x40 == b
    ensures var n := a * 0x1000 + b * 0x40 + c; n / 0x1000 == a && n / 0x40 % 0x40 == b && n % 0x40 == c
    ensures var n := a * 0x4_0000 + b * 0x1000 + c * 0x40 + d;
            n / 0x4_0000 == a && n / 0x1000 % 0x40 == b && n / 0x40 % 0x40 == c && n % 0x40 == d
  {
  }

  lemma DecodedChar(b: seq<Byte>)
    requires DecodeChar(b).Some?
    ensures EncodeChar(DecodeChar(b).value.0) == b[..DecodeChar(b).value.1]
  {
    hide EncodeChar;
    var (c, width) := DecodeChar(b).value;
    if width == 1 {
      assert b[..1] == [b[0]];
      NarrowestChar(c, b[0]);
    } else if width == 2 {
      assert b[..2] == [b[0], b[1]];
      TwoByteChar(c, b[0], b[1]);
    } else if width == 3 {
      assert b[..3] == [b[0], b[1], b[2]];
      ThreeByteChar(c, b[0], b[1], b[2]);
    } else {
      assert b[..4] == [b[0], b[1], b[2], b[3]];
      FourByteChar(c, b[0], b[1], b[2], b[3]);
    }
  }

  lemma NarrowestChar(c: char, x: Byte)
    requires c as int == x < 0x80
    ensures EncodeChar(c) == [x]
  {
  }

  lemma TwoByteChar(c: char, x: Byte, y: Byte)
    requires 0xC0 <= x < 0xE0 && IsContinuation(y) && c as int == Low(x, 0xC0) * 0x40 + Low(y, 0x80) >= 0x80
    ensures EncodeChar(c) == [x, y]
  {
    JoinedDigits(Low(x, 0xC0), Low(y, 0x80), 0, 0);
  }

  lemma ThreeByteChar(c: char, x: Byte, y: Byte, z: Byte)
    requires 0xE0 <= x < 0xF0 && IsContinuation(y) && IsContinuation(z)
    requires c as int == Low(x, 0xE0) * 0x1000 + Low(y, 0x80) * 0x40 + Low(z, 0x80) >= 0x800
    ensures EncodeChar(c) == [x, y, z]
  {
    JoinedDigits(Low(x, 0xE0), Low(y, 0x80), Low(z, 0x80), 0);
  }

  lemma FourByteChar(c: char, x: Byte, y: Byte, z: Byte, w: Byte)
    requires 0xF0 <= x < 0xF8 && IsContinuation(y) && IsContinuation(z) && IsContinuation(w)
    requires c as int == Low(x, 0xF0) * 0x4_0000 + Low(y, 0x80) * 0x1000 + Low(z, 0x80) * 0x40 + Low(w, 0x80) >= 0x1_0000
    ensures EncodeChar(c) == [x, y, z, w]
  {
    JoinedDigits(Low(x, 0xF0), Low(y, 0x80), Low(z, 0x80), Low(w, 0x80));
  }

  /** Only the encoding of a text is read as that text. */
  lemma {:induction false} DecodedIsText(b: seq<Byte>)
    requires Decode(b).Some?
    ensures Encode(Decode(b).value) == b
    decreases |b|
  {
    hide EncodeChar, DecodeChar;
    if b != [] {
      DecodedChar(b);
      var (c, width) := DecodeChar(b).value;
      DecodedIsText(b[width..]);
      var rest := Decode(b[width..]).value;
      assert ([c] + rest)[1..] == rest;
    }
  }
}
