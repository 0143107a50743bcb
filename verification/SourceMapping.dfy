/** Line and column positions in rewritten SQL, and mapping them back to the text the user wrote (source_map.rs). */
module SourceMapping {
  import opened Utf8
  import opened Wrappers

  datatype Span = Span(offset: nat, len: nat) {
    function End(): nat {
      offset + len
    }

    function Union(other: Span): Span {
      var start := if offset <= other.offset then offset else other.offset;
      var end := if End() >= other.End() then End() else other.End();
      Span(start, end - start)
    }

    predicate Covers(other: Span) {
      offset <= other.offset && other.End() <= End()
    }
  }

  datatype Piece = Piece(start: nat, len: nat, origin: Option<Span>) {
    function End(): nat {
      start + len
    }
  }

  /** Lines and columns count from one and in characters; zero stands for "nowhere". */
  datatype Location = Location(line: nat, column: nat)

  datatype SqlSpan = SqlSpan(start: Location, end: Location)

  const EMPTY_SPAN := SqlSpan(Location(0, 0), Location(0, 0))

  datatype SourceMap = SourceMap(rewritten: string, pieces: seq<Piece>, lineStarts: seq<nat>) {
    function LocationToOffset(location: Location): Option<nat> {
      if location.line == 0 || location.column == 0 then None
      else if location.line - 1 >= |lineStarts| then None
      else Some(lineStarts[location.line - 1] + location.column - 1)
    }

    function SpanToRewritten(span: SqlSpan): Option<Span> {
      if span == EMPTY_SPAN then None
      else
        match (LocationToOffset(span.start), LocationToOffset(span.end))
        case (Some(start), Some(end)) => Some(Span(start, if end >= start + 1 then end - start else 1))
        case _ => None
    }

    function MapSqlSpan(span: SqlSpan): Option<Span> {
      match SpanToRewritten(span)
      case None => None
      case Some(range) => Cover(Origins(pieces, range))
    }
  }

  predicate Overlaps(piece: Piece, range: Span) {
    piece.start < range.End() && range.offset < piece.End()
  }

  /** Where the touched pieces were copied from, in order. */
  function Origins(pieces: seq<Piece>, range: Span): (spans: seq<Span>)
    ensures forall o :: o in spans <==> exists i :: 0 <= i < |pieces| && Overlaps(pieces[i], range) && pieces[i].origin == Some(o)
  {
    if |pieces| == 0 then []
    else
      var rest := Origins(pieces[1..], range);
      var here := if Overlaps(pieces[0], range) && pieces[0].origin.Some? then [pieces[0].origin.value] else [];
      here + rest
  }

  function UnionAll(state: Span, spans: seq<Span>): Span
    decreases |spans|
  {
    if |spans| == 0 then state else UnionAll(state.Union(spans[0]), spans[1..])
  }

  function Cover(spans: seq<Span>): Option<Span> {
    if |spans| == 0 then None else Some(UnionAll(spans[0], spans[1..]))
  }

  // ---------- byte positions ----------

  /** The byte position of character `i`. */
  function ByteAt(s: string, i: nat): nat
    requires i <= |s|
  {
    if i == 0 then 0 else ByteAt(s, i - 1) + CharLen(s[i - 1])
  }

  /** `str::len` */
  function ByteLen(s: string): nat {
    ByteAt(s, |s|)
  }

  /** Byte positions are those of the encoded text. */
  lemma {:induction false} ByteAtIsEncodedLength(s: string, i: nat)
    requires i <= |s|
    ensures ByteAt(s, i) == |Encode(s[..i])|
  {
    if i > 0 {
      ByteAtIsEncodedLength(s, i - 1);
      assert s[..i] == s[..i - 1] + [s[i - 1]];
      EncodeConcat(s[..i - 1], [s[i - 1]]);
      EncodeHead([s[i - 1]]);
      assert [s[i - 1]][1..] == "";
    }
  }

  lemma {:induction false} ByteAtConcat(a: string, b: string, i: nat)
    requires i <= |a + b|
    ensures ByteAt(a + b, i) == if i <= |a| then ByteAt(a, i) else ByteLen(a) + ByteAt(b, i - |a|)
  {
    if i > 0 { ByteAtConcat(a, b, i - 1); }
  }

  lemma ByteLenConcat(a: string, b: string)
    ensures ByteLen(a + b) == ByteLen(a) + ByteLen(b)
  {
    ByteAtConcat(a, b, |a + b|);
  }

  // ---------- where lines start ----------

  /** The byte offset after every newline among the first `i` characters, with zero in front. */
  function LineStartsTo(s: string, i: nat): seq<nat>
    requires i <= |s|
  {
    if i == 0 then [0]
    else if s[i - 1] == '\n' then LineStartsTo(s, i - 1) + [ByteAt(s, i - 1) + 1]
    else LineStartsTo(s, i - 1)
  }

  function LineStarts(s: string): seq<nat> {
    LineStartsTo(s, |s|)
  }

  method ComputeLineStarts(input: string) returns (starts: seq<nat>)
    ensures starts == LineStarts(input)
  {
    starts := [0];
    var idx := 0;
    var i := 0;
    while i < |input|
      invariant 0 <= i <= |input|
      invariant idx == ByteAt(input, i)
      invariant starts == LineStartsTo(input, i)
    {
      if input[i] == '\n' {
        starts := starts + [idx + 1];
      }
      idx := idx + CharLen(input[i]);
      i := i + 1;
    }
  }

  method NewSourceMap(rewritten: string, pieces: seq<Piece>) returns (m: SourceMap)
    ensures m == SourceMap(rewritten, pieces, LineStarts(rewritten))
  {
    var starts := ComputeLineStarts(rewritten);
    m := SourceMap(rewritten, pieces, starts);
  }

  // ---------- line and column against byte position ----------

  /** Where the tokenizer stands after reading `i` characters. */
  function LocationAt(s: string, i: nat): (location: Location)
    requires i <= |s|
    ensures 1 <= location.line && 1 <= location.column <= i + 1
  {
    if i == 0 then Location(1, 1)
    else
      var previous := LocationAt(s, i - 1);
      if s[i - 1] == '\n' then Location(previous.line + 1, 1) else Location(previous.line, previous.column + 1)
  }

  /** Where the line of character `i` begins. */
  function LineBegin(s: string, i: nat): (begin: nat)
    requires i <= |s|
    ensures begin <= i
  {
    i - (LocationAt(s, i).column - 1)
  }

  predicate AsciiBetween(s: string, i: nat, j: nat)
    requires i <= j <= |s|
  {
    forall k :: i <= k < j ==> s[k] as int < 0x80
  }

  /** Only ASCII stands before character `i` on its line. */
  predicate AsciiLine(s: string, i: nat)
    requires i <= |s|
  {
    AsciiBetween(s, LineBegin(s, i), i)
  }

  lemma {:induction false} LastLineStart(s: string, i: nat)
    requires i <= |s|
    ensures |LineStartsTo(s, i)| == LocationAt(s, i).line
    ensures LineStartsTo(s, i)[LocationAt(s, i).line - 1] == ByteAt(s, LineBegin(s, i))
  {
    if i > 0 { LastLineStart(s, i - 1); }
  }

  lemma {:induction false} LineStartsGrow(s: string, i: nat, j: nat)
    requires i <= j <= |s|
    ensures LineStartsTo(s, i) <= LineStartsTo(s, j)
    decreases j
  {
    if i < j { LineStartsGrow(s, i, j - 1); }
  }

  lemma {:induction false} BytesBetween(s: string, i: nat, j: nat)
    requires i <= j <= |s|
    ensures ByteAt(s, i) + (j - i) <= ByteAt(s, j)
    ensures ByteAt(s, i) + (j - i) == ByteAt(s, j) <==> AsciiBetween(s, i, j)
    decreases j
  {
    if i < j { BytesBetween(s, i, j - 1); }
  }

  /**
   * A line and column give back the byte position of the character they were counted for exactly when
   * everything before it on its line is ASCII; otherwise they fall short of it.
   */
  lemma OffsetOfLocation(m: SourceMap, i: nat)
    requires m.lineStarts == LineStarts(m.rewritten) && i <= |m.rewritten|
    ensures var offset := m.LocationToOffset(LocationAt(m.rewritten, i));
            offset.Some? && offset.value <= ByteAt(m.rewritten, i) &&
            (offset.value == ByteAt(m.rewritten, i) <==> AsciiLine(m.rewritten, i))
  {
    LastLineStart(m.rewritten, i);
    LineStartsGrow(m.rewritten, i, |m.rewritten|);
    BytesBetween(m.rewritten, LineBegin(m.rewritten, i), i);
  }

  // ---------- mapping a range back ----------

  lemma {:induction false} UnionCovers(state: Span, spans: seq<Span>)
    ensures UnionAll(state, spans).Covers(state)
    ensures forall o :: o in spans ==> UnionAll(state, spans).Covers(o)
    decreases |spans|
  {
    if |spans| > 0 {
      UnionCovers(state.Union(spans[0]), spans[1..]);
      assert spans == [spans[0]] + spans[1..];
    }
  }

  lemma {:induction false} UnionIsLeast(state: Span, spans: seq<Span>, bound: Span)
    requires bound.Covers(state) && forall o :: o in spans ==> bound.Covers(o)
    ensures bound.Covers(UnionAll(state, spans))
    decreases |spans|
  {
    if |spans| > 0 {
      assert spans[0] in spans;
      UnionIsLeast(state.Union(spans[0]), spans[1..], bound);
    }
  }

  /** There is an answer as soon as a piece with an origin is touched, and it covers every such origin. */
  lemma CoverHoldsAll(spans: seq<Span>)
    ensures Cover(spans).None? <==> spans == []
    ensures forall o :: o in spans ==> Cover(spans).value.Covers(o)
  {
    if |spans| > 0 {
      assert spans == [spans[0]] + spans[1..];
      UnionCovers(spans[0], spans[1..]);
    }
  }

  /** No smaller span would do. */
  lemma CoverIsLeast(spans: seq<Span>, bound: Span)
    requires spans != [] && forall o :: o in spans ==> bound.Covers(o)
    ensures bound.Covers(Cover(spans).value)
  {
    assert spans[0] in spans;
    UnionIsLeast(spans[0], spans[1..], bound);
  }

  /** The pieces follow each other from `from` to `to` without gap or overlap, and none is empty. */
  predicate Tiles(pieces: seq<Piece>, from: nat, to: nat) {
    if |pieces| == 0 then from == to
    else pieces[0].start == from && pieces[0].len > 0 && Tiles(pieces[1..], pieces[0].End(), to)
  }

  /** A piece with an origin holds the very bytes found there. */
  predicate Copied(piece: Piece, rewritten: seq<Byte>, source: seq<Byte>) {
    piece.End() <= |rewritten| &&
    match piece.origin
    case None => true
    case Some(o) => o.len == piece.len && o.End() <= |source| && source[o.offset..o.End()] == rewritten[piece.start..piece.End()]
  }

  /** The source position of a copied byte. */
  function OriginOf(pieces: seq<Piece>, k: nat): Option<nat> {
    if |pieces| == 0 then None
    else if pieces[0].start <= k < pieces[0].End() then
      match pieces[0].origin
      case None => None
      case Some(o) => Some(o.offset + (k - pieces[0].start))
    else OriginOf(pieces[1..], k)
  }

  /** None of the rewritten bytes from `from` up to `to` was copied. */
  ghost predicate Synthesised(pieces: seq<Piece>, from: nat, to: nat) {
    forall k :: from <= k < to ==> OriginOf(pieces, k).None?
  }

  lemma {:induction false} OriginHasPiece(pieces: seq<Piece>, k: nat) returns (i: nat)
    requires OriginOf(pieces, k).Some?
    ensures i < |pieces| && pieces[i].start <= k < pieces[i].End() && pieces[i].origin.Some?
    ensures OriginOf(pieces, k).value == pieces[i].origin.value.offset + (k - pieces[i].start)
  {
    if pieces[0].start <= k < pieces[0].End() {
      i := 0;
    } else {
      i := OriginHasPiece(pieces[1..], k);
      i := i + 1;
    }
  }

  lemma {:induction false} TilesAreDisjoint(pieces: seq<Piece>, from: nat, to: nat, i: nat, k: nat)
    requires Tiles(pieces, from, to) && i < |pieces|
    requires pieces[i].start <= k < pieces[i].End()
    ensures from <= k < to
    ensures OriginOf(pieces, k) == OriginOf([pieces[i]], k)
    decreases |pieces|
  {
    if i == 0 {
      TilesReach(pieces[1..], pieces[0].End(), to);
    } else {
      assert pieces[i] == pieces[1..][i - 1];
      TilesAreDisjoint(pieces[1..], pieces[0].End(), to, i - 1, k);
    }
  }

  lemma {:induction false} TilesReach(pieces: seq<Piece>, from: nat, to: nat)
    requires Tiles(pieces, from, to)
    ensures from <= to
    decreases |pieces|
  {
    if |pieces| > 0 { TilesReach(pieces[1..], pieces[0].End(), to); }
  }

  lemma CopyIsTouched(pieces: seq<Piece>, range: Span, k: nat) returns (i: nat)
    requires range.offset <= k < range.End() && OriginOf(pieces, k).Some?
    ensures i < |pieces| && pieces[i].start <= k < pieces[i].End() && pieces[i].origin.Some?
    ensures OriginOf(pieces, k).value == pieces[i].origin.value.offset + (k - pieces[i].start)
    ensures pieces[i].origin.value in Origins(pieces, range)
  {
    i := OriginHasPiece(pieces, k);
  }

  /** A range maps to nothing exactly when none of its bytes was copied. */
  lemma NothingExactlyWhenSynthesised(pieces: seq<Piece>, total: nat, range: Span)
    requires Tiles(pieces, 0, total) && range.len > 0
    ensures Cover(Origins(pieces, range)).None? <==> Synthesised(pieces, range.offset, range.End())
  {
    var spans := Origins(pieces, range);
    CoverHoldsAll(spans);
    forall k | range.offset <= k < range.End() && OriginOf(pieces, k).Some? ensures spans != [] {
      var _ := CopyIsTouched(pieces, range, k);
    }
    if spans != [] {
      var i :| 0 <= i < |pieces| && Overlaps(pieces[i], range) && pieces[i].origin == Some(spans[0]);
      var k := if pieces[i].start >= range.offset then pieces[i].start else range.offset;
      PieceIsNotEmpty(pieces, 0, total, i);
      TilesAreDisjoint(pieces, 0, total, i, k);
    }
  }

  lemma {:induction false} PieceIsNotEmpty(pieces: seq<Piece>, from: nat, to: nat, i: nat)
    requires Tiles(pieces, from, to) && i < |pieces|
    ensures pieces[i].len > 0
    decreases |pieces|
  {
    if i > 0 { PieceIsNotEmpty(pieces[1..], pieces[0].End(), to, i - 1); }
  }

  predicate AllCopied(pieces: seq<Piece>, rewritten: seq<Byte>, source: seq<Byte>) {
    forall i :: 0 <= i < |pieces| ==> Copied(pieces[i], rewritten, source)
  }

  lemma AnswerInsideSource(pieces: seq<Piece>, rewritten: seq<Byte>, source: seq<Byte>, range: Span)
    requires AllCopied(pieces, rewritten, source)
    ensures var answer := Cover(Origins(pieces, range)); answer.Some? ==> answer.value.End() <= |source|
  {
    var spans := Origins(pieces, range);
    var whole := Span(0, |source|);
    CoverHoldsAll(spans);
    if spans != [] {
      forall o | o in spans ensures whole.Covers(o) {
        var i :| 0 <= i < |pieces| && Overlaps(pieces[i], range) && pieces[i].origin == Some(o);
        assert Copied(pieces[i], rewritten, source);
      }
      CoverIsLeast(spans, whole);
    }
  }

  lemma CopiedByteIsHeld(pieces: seq<Piece>, rewritten: seq<Byte>, source: seq<Byte>, range: Span, k: nat)
    requires AllCopied(pieces, rewritten, source)
    requires range.offset <= k < range.End() && OriginOf(pieces, k).Some?
    ensures HoldsByte(Cover(Origins(pieces, range)), OriginOf(pieces, k).value, rewritten, k, source)
  {
    hide Origins, OriginOf, Cover;
    var i := CopyIsTouched(pieces, range, k);
    var o := pieces[i].origin.value;
    assert Copied(pieces[i], rewritten, source);
    CoverHoldsAll(Origins(pieces, range));
    SameByte(source, o.offset, rewritten, pieces[i].start, o.len, k - pieces[i].start);
  }

  lemma SameByte(a: seq<Byte>, i: nat, b: seq<Byte>, j: nat, len: nat, d: nat)
    requires i + len <= |a| && j + len <= |b| && d < len && a[i..i + len] == b[j..j + len]
    ensures a[i + d] == b[j + d]
  {
    assert a[i..i + len][d] == b[j..j + len][d];
  }

  /** `p` lies in the answer, and the source has there what the rewritten text has at `k`. */
  predicate HoldsByte(answer: Option<Span>, p: nat, rewritten: seq<Byte>, k: nat, source: seq<Byte>) {
    answer.Some? && answer.value.offset <= p < answer.value.End() &&
    p < |source| && k < |rewritten| && source[p] == rewritten[k]
  }

  /** A map whose pieces tile the rewritten text and copy from the source. */
  predicate Faithful(m: SourceMap, source: seq<Byte>) {
    m.lineStarts == LineStarts(m.rewritten) &&
    Tiles(m.pieces, 0, |Encode(m.rewritten)|) &&
    AllCopied(m.pieces, Encode(m.rewritten), source)
  }

  /** The span of the characters from `i` up to `j`, as the tokenizer reports it. */
  function SpanOf(s: string, i: nat, j: nat): SqlSpan
    requires i <= j <= |s|
  {
    SqlSpan(LocationAt(s, i), LocationAt(s, j))
  }

  lemma ExactOffset(m: SourceMap, i: nat)
    requires m.lineStarts == LineStarts(m.rewritten) && i <= |m.rewritten| && AsciiLine(m.rewritten, i)
    ensures m.LocationToOffset(LocationAt(m.rewritten, i)) == Some(ByteAt(m.rewritten, i))
  {
    OffsetOfLocation(m, i);
  }

  lemma ExactRange(m: SourceMap, span: SqlSpan, from: nat, to: nat)
    requires span.start.line > 0 && from < to
    requires m.LocationToOffset(span.start) == Some(from) && m.LocationToOffset(span.end) == Some(to)
    ensures m.MapSqlSpan(span) == Cover(Origins(m.pieces, Span(from, to - from)))
  {
    assert m.SpanToRewritten(span) == Some(Span(from, to - from));
  }

  /**
   * An answer for the rewritten bytes from `from` up to `to`: none exactly when all of them were synthesised,
   * and otherwise a span of the source that holds the source position of every copied byte.
   */
  ghost predicate SoundAnswer(answer: Option<Span>, pieces: seq<Piece>, from: nat, to: nat,
                              rewritten: seq<Byte>, source: seq<Byte>)
  {
    (answer.None? <==> Synthesised(pieces, from, to)) &&
    (answer.Some? ==> answer.value.End() <= |source|) &&
    forall k :: from <= k < to && OriginOf(pieces, k).Some? ==> HoldsByte(answer, OriginOf(pieces, k).value, rewritten, k, source)
  }

  lemma RangeIsSound(answer: Option<Span>, pieces: seq<Piece>, rewritten: seq<Byte>, source: seq<Byte>, from: nat, to: nat)
    requires AllCopied(pieces, rewritten, source) && Tiles(pieces, 0, |rewritten|) && from < to
    requires answer == Cover(Origins(pieces, Span(from, to - from)))
    ensures SoundAnswer(answer, pieces, from, to, rewritten, source)
  {
    var range := Span(from, to - from);
    NothingExactlyWhenSynthesised(pieces, |rewritten|, range);
    AnswerInsideSource(pieces, rewritten, source, range);
    forall k | from <= k < to && OriginOf(pieces, k).Some?
      ensures HoldsByte(Cover(Origins(pieces, range)), OriginOf(pieces, k).value, rewritten, k, source)
    {
      CopiedByteIsHeld(pieces, rewritten, source, range, k);
    }
  }

  /** Mapping back the span of a stretch of text that has only ASCII before it on its lines. */
  lemma SpansMapBackSoundly(m: SourceMap, source: seq<Byte>, i: nat, j: nat)
    requires Faithful(m, source) && i < j <= |m.rewritten|
    requires AsciiLine(m.rewritten, i) && AsciiLine(m.rewritten, j)
    ensures SoundAnswer(m.MapSqlSpan(SpanOf(m.rewritten, i, j)), m.pieces,
                        ByteAt(m.rewritten, i), ByteAt(m.rewritten, j), Encode(m.rewritten), source)
  {
    var span, from, to := SpanOf(m.rewritten, i, j), ByteAt(m.rewritten, i), ByteAt(m.rewritten, j);
    ExactOffset(m, i);
    ExactOffset(m, j);
    BytesBetween(m.rewritten, i, j);
    ExactRange(m, span, from, to);
    RangeIsSound(m.MapSqlSpan(span), m.pieces, Encode(m.rewritten), source, from, to);
  }
}
