/** The names that UUIDs are derived from: joined parts and coordinates (namespace-uuid). */
module NameJoin {
  import opened Utf8
  import opened Decimal

  const BUFFER: nat := 256
  const COLON: Byte := 0x3A

  /** `parts.join(":")`. */
  function Join(parts: seq<seq<Byte>>): seq<Byte> {
    if parts == [] then []
    else if |parts| == 1 then parts[0]
    else Join(parts[..|parts| - 1]) + [COLON] + parts[|parts| - 1]
  }

  /** The first `k` parts join to exactly the buffer and nothing but empty parts follow. */
  predicate FillsAt(parts: seq<seq<Byte>>, k: nat) {
    0 < k < |parts| && |Join(parts[..k])| == BUFFER && forall i :: k <= i < |parts| ==> parts[i] == []
  }

  lemma JoinSnoc(parts: seq<seq<Byte>>, i: nat)
    requires 0 < i < |parts|
    ensures Join(parts[..i + 1]) == Join(parts[..i]) + [COLON] + parts[i]
  {
    assert parts[..i + 1][..i] == parts[..i];
  }

  lemma {:induction false} JoinGrows(parts: seq<seq<Byte>>, i: nat, j: nat)
    requires 0 < i <= j <= |parts|
    ensures |Join(parts[..j])| >= |Join(parts[..i])| + (j - i)
  {
    if i < j {
      JoinGrows(parts, i, j - 1);
      JoinSnoc(parts, j - 1);
    }
  }

  lemma FilledIsShort(parts: seq<seq<Byte>>, k: nat)
    requires FillsAt(parts, k)
    ensures |Join(parts)| > BUFFER && Join(parts[..k]) != Join(parts)
  {
    JoinGrows(parts, k, |parts|);
    assert parts[..|parts|] == parts;
  }

  lemma FillIsUnique(parts: seq<seq<Byte>>, k: nat, l: nat)
    requires FillsAt(parts, k) && FillsAt(parts, l)
    ensures k == l
  {
    if k < l { JoinGrows(parts, k, l); }
    if l < k { JoinGrows(parts, l, k); }
  }

  /** A part that no longer fits rules the exception out. */
  lemma OverflowDoesNotFill(parts: seq<seq<Byte>>, i: nat)
    requires i < |parts| && parts[i] != [] && |Join(parts[..i + 1])| > BUFFER
    ensures forall k: nat :: !FillsAt(parts, k)
  {
    forall k: nat ensures !FillsAt(parts, k) {
      if i < k < |parts| { JoinGrows(parts, i + 1, k); }
    }
  }

  method CopyIn(buf: array<Byte>, pos: nat, bytes: seq<Byte>)
    requires pos + |bytes| <= buf.Length
    modifies buf
    ensures buf[..pos] == old(buf[..pos]) && buf[pos..pos + |bytes|] == bytes
  {
    for i := 0 to |bytes|
      invariant buf[..pos] == old(buf[..pos]) && buf[pos..pos + i] == bytes[..i]
    {
      buf[pos + i] := bytes[i];
    }
  }

  /**
   The bytes hashed as the name: the joined text, unless a proper prefix of the parts fills the buffer
   exactly and only empty parts follow, which leaves their separators out.
   */
  method JoinedName(parts: seq<seq<Byte>>) returns (name: seq<Byte>)
    ensures forall k: nat :: FillsAt(parts, k) ==> name == Join(parts[..k])
    ensures name == Join(parts) <==> forall k: nat :: !FillsAt(parts, k)
  {
    var buf := new Byte[BUFFER](_ => 0);
    var pos := 0;
    ghost var stop := 0;
    for i := 0 to |parts|
      invariant 0 <= pos <= BUFFER && stop <= i
      invariant stop == 0 ==> buf[..pos] == Join(parts[..i])
      invariant stop > 0 ==> pos == |Join(parts[..stop])| == BUFFER && buf[..pos] == Join(parts[..stop])
      invariant stop > 0 ==> stop < i && (forall k :: stop <= k < i ==> parts[k] == []) && |Join(parts[..i])| > BUFFER
    {
      ghost var full := i > 0 && pos == BUFFER;
      if i == 0 { assert parts[..1] == [parts[0]]; } else { JoinSnoc(parts, i); }
      if i > 0 && pos < BUFFER {
        buf[pos] := COLON;
        pos := pos + 1;
      }
      var bytes := parts[i];
      var end := pos + |bytes|;
      if end <= BUFFER {
        CopyIn(buf, pos, bytes);
        assert buf[..end] == buf[..pos] + buf[pos..end];
        pos := end;
        if full && stop == 0 {
          stop := i;
        }
      } else {
        OverflowDoesNotFill(parts, i);
        name := Join(parts);
        return;
      }
    }
    assert parts[..|parts|] == parts;
    name := buf[..pos];
    if stop > 0 {
      assert FillsAt(parts, stop);
      FilledIsShort(parts, stop);
    }
    forall k: nat | FillsAt(parts, k) ensures k == stop {
      FilledIsShort(parts, k);
      if stop > 0 { FillIsUnique(parts, k, stop); }
    }
  }

  /** So 256 bytes alone and 256 bytes before an empty part get the same name. */
  lemma FullBufferCollides(part: seq<Byte>)
    requires |part| == BUFFER
    ensures FillsAt([part, []], 1) && Join([part, []][..1]) == Join([part]) && Join([part, []]) != Join([part])
  {
    assert [part, []][..1] == [part];
    FilledIsShort([part, []], 1);
  }

  // ---------- coordinates ----------

  /** `{pre}:{post}:{x}:{y}:{z}`. */
  function CoordText(pre: nat, post: nat, x: int, y: int, z: int): string {
    OfInt(pre) + ":" + (OfInt(post) + ":" + (OfInt(x) + ":" + (OfInt(y) + ":" + OfInt(z))))
  }

  predicate InRange(pre: nat, post: nat, x: int, y: int, z: int) {
    pre <= U64_MAX && post <= U64_MAX && I64_MIN <= x <= I64_MAX && I64_MIN <= y <= I64_MAX && I64_MIN <= z <= I64_MAX
  }

  /** The text always fits its 128-byte buffer, with 24 bytes to spare. */
  lemma CoordsFit(pre: nat, post: nat, x: int, y: int, z: int)
    requires InRange(pre, post, x, y, z)
    ensures |CoordText(pre, post, x, y, z)| <= 104
  {
    MachineWidth(pre);
    MachineWidth(post);
    MachineWidth(x);
    MachineWidth(y);
    MachineWidth(z);
  }

  predicate ColonFree(s: string) {
    forall i :: 0 <= i < |s| ==> s[i] != ':'
  }

  lemma NumberChars(n: int)
    ensures ColonFree(OfInt(n)) && Ascii(OfInt(n))
  {
    var digits := OfNat(if n < 0 then -n else n);
    assert forall i :: 0 <= i < |digits| ==> IsDigit(digits[i]);
  }

  /** Up to its first colon a text can be read in one way only. */
  lemma SplitAtColon(a: string, b: string, c: string, d: string)
    requires ColonFree(a) && ColonFree(c) && a + ":" + b == c + ":" + d
    ensures a == c && b == d
  {
    var s := a + ":" + b;
    assert s[|a|] == ':' && s[|c|] == ':';
    assert forall i :: 0 <= i < |a| ==> s[i] == a[i];
    assert forall i :: 0 <= i < |c| ==> s[i] == c[i];
    assert |a| == |c|;
    assert s[..|a|] == a && s[|a| + 1..] == b && s[..|c|] == c && s[|c| + 1..] == d;
  }

  lemma FirstNumber(m: int, a: string, n: int, b: string)
    requires OfInt(m) + ":" + a == OfInt(n) + ":" + b
    ensures m == n && a == b
  {
    NumberChars(m);
    NumberChars(n);
    SplitAtColon(OfInt(m), a, OfInt(n), b);
    OfIntInjective(m, n);
  }

  /** Different coordinates have different names. */
  lemma CoordTextIsInjective(p: nat, q: nat, x: int, y: int, z: int, p': nat, q': nat, x': int, y': int, z': int)
    requires CoordText(p, q, x, y, z) == CoordText(p', q', x', y', z')
    ensures p == p' && q == q' && x == x' && y == y' && z == z'
  {
    var t3, t3' := OfInt(y) + ":" + OfInt(z), OfInt(y') + ":" + OfInt(z');
    var t2, t2' := OfInt(x) + ":" + t3, OfInt(x') + ":" + t3';
    var t1, t1' := OfInt(q) + ":" + t2, OfInt(q') + ":" + t2';
    FirstNumber(p, t1, p', t1');
    FirstNumber(q, t2, q', t2');
    FirstNumber(x, t3, x', t3');
    FirstNumber(y, OfInt(z), y', OfInt(z'));
    OfIntInjective(z, z');
  }

  lemma AsciiAfterNumber(n: int, rest: string)
    requires Ascii(rest)
    ensures Ascii(OfInt(n) + ":" + rest)
  {
    NumberChars(n);
  }

  lemma CoordsAreAscii(pre: nat, post: nat, x: int, y: int, z: int)
    ensures |Encode(CoordText(pre, post, x, y, z))| == |CoordText(pre, post, x, y, z)|
  {
    NumberChars(z);
    AsciiAfterNumber(y, OfInt(z));
    AsciiAfterNumber(x, OfInt(y) + ":" + OfInt(z));
    AsciiAfterNumber(post, OfInt(x) + ":" + (OfInt(y) + ":" + OfInt(z)));
    AsciiAfterNumber(pre, OfInt(post) + ":" + (OfInt(x) + ":" + (OfInt(y) + ":" + OfInt(z))));
    OneByteEach(CoordText(pre, post, x, y, z));
  }

  /** `write!` into the slice: copies what fits and drops the rest. */
  method WriteText(buf: array<Byte>, pos: nat, text: string) returns (next: nat)
    requires pos <= buf.Length
    modifies buf
    ensures next == if pos + |Encode(text)| <= buf.Length then pos + |Encode(text)| else buf.Length
    ensures buf[..next] == old(buf[..pos]) + Encode(text)[..next - pos]
  {
    var bytes := Encode(text);
    var fits := if pos + |bytes| <= buf.Length then |bytes| else buf.Length - pos;
    CopyIn(buf, pos, bytes[..fits]);
    next := pos + fits;
    assert buf[..next] == buf[..pos] + buf[pos..next];
  }

  /** The name hashed for coordinates is their whole text. */
  method CoordsName(pre: nat, post: nat, x: int, y: int, z: int) returns (name: seq<Byte>)
    requires InRange(pre, post, x, y, z)
    ensures name == Encode(CoordText(pre, post, x, y, z)) && |name| <= 104
  {
    hide Encode, OfInt, CoordText, InRange;
    CoordsFit(pre, post, x, y, z);
    CoordsAreAscii(pre, post, x, y, z);
    var buf := new Byte[128](_ => 0);
    var len := WriteText(buf, 0, CoordText(pre, post, x, y, z));
    name := buf[..len];
  }

  function DecimalBytes(n: int): seq<Byte> {
    Encode(OfInt(n))
  }

  lemma JoinedTwo(a: seq<Byte>, parts: seq<seq<Byte>>)
    requires |parts| > 0
    ensures Join(parts + [a]) == Join(parts) + ([COLON] + a)
  {
    assert (parts + [a])[..|parts|] == parts;
    assert Join(parts) + [COLON] + a == Join(parts) + ([COLON] + a);
  }

  lemma BehindColon(a: string, b: string)
    ensures Encode(a + (":" + b)) == Encode(a) + ([0x3A] + Encode(b))
  {
    EncodeConcat(a, ":" + b);
    EncodeConcat(":", b);
    assert ":"[1..] == "";
    assert Encode(":") == [0x3A];
  }

  /** Coordinates are named as the parts `pre`, `post`, `x`, `y` and `z` in decimal would be. */
  lemma CoordsAreJoined(pre: nat, post: nat, x: int, y: int, z: int)
    ensures Encode(CoordText(pre, post, x, y, z)) ==
            Join([DecimalBytes(pre), DecimalBytes(post), DecimalBytes(x), DecimalBytes(y), DecimalBytes(z)])
  {
    hide Encode, OfInt, Join;
    var a, b, c, d, e := OfInt(pre), OfInt(post), OfInt(x), OfInt(y), OfInt(z);
    FiveJoined(DecimalBytes(pre), DecimalBytes(post), DecimalBytes(x), DecimalBytes(y), DecimalBytes(z));
    assert CoordText(pre, post, x, y, z) == a + (":" + (b + (":" + (c + (":" + (d + (":" + e)))))));
    BehindColon(a, b + (":" + (c + (":" + (d + (":" + e))))));
    BehindColon(b, c + (":" + (d + (":" + e))));
    BehindColon(c, d + (":" + e));
    BehindColon(d, e);
  }

  lemma FiveJoined(a: seq<Byte>, b: seq<Byte>, c: seq<Byte>, d: seq<Byte>, e: seq<Byte>)
    ensures Join([a, b, c, d, e]) == a + ([COLON] + (b + ([COLON] + (c + ([COLON] + (d + ([COLON] + e)))))))
  {
    OneJoined(a);
    JoinedTwo(b, [a]);
    JoinedTwo(c, [a] + [b]);
    JoinedTwo(d, [a] + [b] + [c]);
    JoinedTwo(e, [a] + [b] + [c] + [d]);
    assert [a] + [b] + [c] + [d] + [e] == [a, b, c, d, e];
  }

  lemma OneJoined(a: seq<Byte>)
    ensures Join([a]) == a
  {
  }
}
