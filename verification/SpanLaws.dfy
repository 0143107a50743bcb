/** When a span that was reported in characters still maps back soundly, for any text. */
module SpanLaws {
  import opened SourceMapping
  import opened Utf8
  import opened Wrappers

  /** Copied pieces come from increasing, disjoint places that end by `limit`. */
  predicate OriginsIncrease(pieces: seq<Piece>, limit: nat) {
    (forall i :: 0 <= i < |pieces| && pieces[i].origin.Some? ==> pieces[i].origin.value.End() <= limit) &&
    forall i, j :: 0 <= i < j < |pieces| && pieces[i].origin.Some? && pieces[j].origin.Some? ==>
                     pieces[i].origin.value.End() <= pieces[j].origin.value.offset
  }

  predicate TouchesCopy(piece: Piece, range: Span) {
    piece.origin.Some? && Overlaps(piece, range)
  }

  /** The last copied piece among the first `n` that the range touches. */
  function LastCopiedBefore(pieces: seq<Piece>, range: Span, n: nat): (r: Option<nat>)
    requires n <= |pieces|
    ensures r.Some? ==> r.value < n && TouchesCopy(pieces[r.value], range)
    ensures r.Some? ==> forall i :: r.value < i < n ==> !TouchesCopy(pieces[i], range)
    ensures r.None? ==> forall i :: 0 <= i < n ==> !TouchesCopy(pieces[i], range)
  {
    if n == 0 then None
    else if TouchesCopy(pieces[n - 1], range) then Some(n - 1)
    else LastCopiedBefore(pieces, range, n - 1)
  }

  function LastCopied(pieces: seq<Piece>, range: Span): Option<nat> {
    LastCopiedBefore(pieces, range, |pieces|)
  }

  lemma {:induction false} TilesAreOrdered(pieces: seq<Piece>, from: nat, to: nat, i: nat, j: nat)
    requires Tiles(pieces, from, to) && i <= j < |pieces|
    ensures from <= pieces[i].start && pieces[i].start <= pieces[j].start
    ensures i < j ==> pieces[i].End() <= pieces[j].start
    decreases |pieces|
  {
    if i > 0 {
      TilesAreOrdered(pieces[1..], pieces[0].End(), to, i - 1, j - 1);
    } else if j > 0 {
      TilesAreOrdered(pieces[1..], pieces[0].End(), to, 0, j - 1);
    }
  }

  /** A byte of the last copied piece the range touches, and where it was copied from. */
  lemma ByteOfPiece(pieces: seq<Piece>, total: nat, range: Span, i: nat) returns (k: nat)
    requires Tiles(pieces, 0, total) && range.len > 0 && i < |pieces| && TouchesCopy(pieces[i], range)
    ensures range.offset <= k < range.End() && pieces[i].start <= k < pieces[i].End()
    ensures OriginOf(pieces, k) == Some(pieces[i].origin.value.offset + (k - pieces[i].start))
  {
    PieceIsNotEmpty(pieces, 0, total, i);
    k := if pieces[i].start >= range.offset then pieces[i].start else range.offset;
    TilesAreDisjoint(pieces, 0, total, i, k);
  }

  lemma TouchedOriginIsListed(pieces: seq<Piece>, range: Span, i: nat)
    requires i < |pieces| && TouchesCopy(pieces[i], range)
    ensures pieces[i].origin.value in Origins(pieces, range)
  {
  }

  lemma ListedOriginIsTouched(pieces: seq<Piece>, range: Span, o: Span) returns (i: nat)
    requires o in Origins(pieces, range)
    ensures i < |pieces| && TouchesCopy(pieces[i], range) && pieces[i].origin == Some(o)
  {
    i :| 0 <= i < |pieces| && Overlaps(pieces[i], range) && pieces[i].origin == Some(o);
  }

  lemma NoAnswerExactly(pieces: seq<Piece>, range: Span)
    ensures Cover(Origins(pieces, range)).None? <==> LastCopied(pieces, range).None?
  {
    hide UnionAll;
    var spans := Origins(pieces, range);
    CoverHoldsAll(spans);
    if LastCopied(pieces, range).Some? { TouchedOriginIsListed(pieces, range, LastCopied(pieces, range).value); }
    if spans != [] { var _ := ListedOriginIsTouched(pieces, range, spans[0]); }
  }

  lemma SynthesisedExactly(pieces: seq<Piece>, total: nat, range: Span)
    requires Tiles(pieces, 0, total) && range.len > 0
    ensures LastCopied(pieces, range).None? <==> Synthesised(pieces, range.offset, range.End())
  {
    NothingExactlyWhenSynthesised(pieces, total, range);
    NoAnswerExactly(pieces, range);
  }

  /** A byte of a piece the reported range touches is held by the answer, whether or not the range has that byte. */
  lemma TouchedByteIsHeld(pieces: seq<Piece>, rewritten: seq<Byte>, source: seq<Byte>, reported: Span, i: nat, k: nat)
    requires AllCopied(pieces, rewritten, source) && i < |pieces| && TouchesCopy(pieces[i], reported)
    requires pieces[i].start <= k < pieces[i].End()
    ensures HoldsByte(Cover(Origins(pieces, reported)), pieces[i].origin.value.offset + (k - pieces[i].start), rewritten, k, source)
  {
    hide Origins, Cover;
    var o := pieces[i].origin.value;
    assert Copied(pieces[i], rewritten, source);
    TouchedOriginIsListed(pieces, reported, i);
    CoverHoldsAll(Origins(pieces, reported));
    SameByte(source, o.offset, rewritten, pieces[i].start, o.len, k - pieces[i].start);
  }

  /** Ending on the same copied piece, a range to the left touches every copied piece the true range does. */
  lemma SameLastIsSound(
    pieces: seq<Piece>, rewritten: seq<Byte>, source: seq<Byte>, reported: Span, range: Span)
    requires AllCopied(pieces, rewritten, source) && Tiles(pieces, 0, |rewritten|) && range.len > 0
    requires reported.offset <= range.offset
    requires LastCopied(pieces, reported) == LastCopied(pieces, range)
    ensures SoundAnswer(Cover(Origins(pieces, reported)), pieces, range.offset, range.End(), rewritten, source)
  {
    hide Origins, OriginOf, Cover, Tiles, AllCopied, HoldsByte, LastCopied;
    var answer := Cover(Origins(pieces, reported));
    NoAnswerExactly(pieces, reported);
    SynthesisedExactly(pieces, |rewritten|, range);
    AnswerInsideSource(pieces, rewritten, source, reported);
    forall k | range.offset <= k < range.End() && OriginOf(pieces, k).Some?
      ensures HoldsByte(answer, OriginOf(pieces, k).value, rewritten, k, source)
    {
      CopyOfTrueRangeIsHeld(pieces, rewritten, source, reported, range, k);
    }
  }

  lemma CopyOfTrueRangeIsHeld(
    pieces: seq<Piece>, rewritten: seq<Byte>, source: seq<Byte>, reported: Span, range: Span, k: nat)
    requires AllCopied(pieces, rewritten, source) && Tiles(pieces, 0, |rewritten|)
    requires reported.offset <= range.offset && LastCopied(pieces, reported) == LastCopied(pieces, range)
    requires range.offset <= k < range.End() && OriginOf(pieces, k).Some?
    ensures HoldsByte(Cover(Origins(pieces, reported)), OriginOf(pieces, k).value, rewritten, k, source)
  {
    hide Origins, OriginOf, Cover, AllCopied, HoldsByte, Tiles;
    var i := OriginHasPiece(pieces, k);
    assert TouchesCopy(pieces[i], range);
    TilesAreOrdered(pieces, 0, |rewritten|, i, LastCopied(pieces, range).value);
    TouchedByteIsHeld(pieces, rewritten, source, reported, i, k);
  }

  /** A sound answer reaches the last copied piece of the true range. */
  lemma SoundHasSameLast(
    pieces: seq<Piece>, rewritten: seq<Byte>, source: seq<Byte>, reported: Span, range: Span)
    requires AllCopied(pieces, rewritten, source) && Tiles(pieces, 0, |rewritten|) && range.len > 0
    requires OriginsIncrease(pieces, |source|) && reported.End() <= range.End()
    requires SoundAnswer(Cover(Origins(pieces, reported)), pieces, range.offset, range.End(), rewritten, source)
    ensures LastCopied(pieces, reported) == LastCopied(pieces, range)
  {
    hide Origins, OriginOf, Cover, AllCopied, Tiles;
    NoAnswerExactly(pieces, reported);
    SynthesisedExactly(pieces, |rewritten|, range);
    assert LastCopied(pieces, reported).None? <==> LastCopied(pieces, range).None?;
    if LastCopied(pieces, range).Some? {
      var last, found := LastCopied(pieces, range).value, LastCopied(pieces, reported).value;
      EndsNoLater(pieces, |rewritten|, reported, range);
      if found < last {
        var _ := ByteOfPiece(pieces, |rewritten|, range, last);
        EarlierPiecesEndBefore(pieces, source, reported, found, last);
      }
    }
  }

  lemma EndsNoLater(pieces: seq<Piece>, total: nat, reported: Span, range: Span)
    requires Tiles(pieces, 0, total) && reported.End() <= range.End()
    requires LastCopied(pieces, reported).Some? && LastCopied(pieces, range).Some?
    ensures LastCopied(pieces, reported).value <= LastCopied(pieces, range).value
  {
    hide Tiles;
    var last, found := LastCopied(pieces, range).value, LastCopied(pieces, reported).value;
    if last < found { TilesAreOrdered(pieces, 0, total, last, found); }
  }

  lemma EarlierPiecesEndBefore(pieces: seq<Piece>, source: seq<Byte>, reported: Span, found: nat, last: nat)
    requires OriginsIncrease(pieces, |source|) && found < last < |pieces| && pieces[last].origin.Some?
    requires LastCopied(pieces, reported) == Some(found)
    ensures Cover(Origins(pieces, reported)).Some?
    ensures Cover(Origins(pieces, reported)).value.End() <= pieces[last].origin.value.offset
  {
    hide Origins, Cover, UnionAll;
    var spans, bound := Origins(pieces, reported), Span(0, pieces[last].origin.value.offset);
    NoAnswerExactly(pieces, reported);
    CoverHoldsAll(spans);
    forall o | o in spans ensures bound.Covers(o) {
      var i := ListedOriginIsTouched(pieces, reported, o);
      assert i <= found;
    }
    CoverIsLeast(spans, bound);
  }

  /**
   * The answer for a range reported too far to the left is sound for the true range exactly when both
   * ranges end on the same copied piece.
   */
  lemma ShiftedAnswerExactly(
    pieces: seq<Piece>, rewritten: seq<Byte>, source: seq<Byte>, reported: Span, range: Span)
    requires AllCopied(pieces, rewritten, source) && Tiles(pieces, 0, |rewritten|)
    requires OriginsIncrease(pieces, |source|) && range.len > 0
    requires reported.offset <= range.offset && reported.End() <= range.End()
    ensures SoundAnswer(Cover(Origins(pieces, reported)), pieces, range.offset, range.End(), rewritten, source) <==>
            LastCopied(pieces, reported) == LastCopied(pieces, range)
  {
    hide SoundAnswer, LastCopied, Origins, Cover;
    if LastCopied(pieces, reported) == LastCopied(pieces, range) {
      SameLastIsSound(pieces, rewritten, source, reported, range);
    }
    if SoundAnswer(Cover(Origins(pieces, reported)), pieces, range.offset, range.End(), rewritten, source) {
      SoundHasSameLast(pieces, rewritten, source, reported, range);
    }
  }

  /** The rewritten bytes of the characters from `i` up to `j`. */
  function TrueRange(s: string, i: nat, j: nat): Span
    requires i < j <= |s|
  {
    BytesBetween(s, i, j);
    Span(ByteAt(s, i), ByteAt(s, j) - ByteAt(s, i))
  }

  /** The bytes the reported positions of those characters are taken for, which begin and end no later. */
  lemma ReportedIsToTheLeft(m: SourceMap, i: nat, j: nat)
    requires m.lineStarts == LineStarts(m.rewritten) && i < j <= |m.rewritten|
    ensures var reported, range := m.SpanToRewritten(SpanOf(m.rewritten, i, j)), TrueRange(m.rewritten, i, j);
            reported.Some? && reported.value.offset <= range.offset && reported.value.End() <= range.End() && range.len > 0
    ensures m.MapSqlSpan(SpanOf(m.rewritten, i, j)) ==
            Cover(Origins(m.pieces, m.SpanToRewritten(SpanOf(m.rewritten, i, j)).value))
  {
    hide Origins, Cover, LineStartsTo;
    OffsetOfLocation(m, i);
    OffsetOfLocation(m, j);
    BytesBetween(m.rewritten, i, j);
  }

  /**
   * Mapping back a stretch of any text is sound if and only if the reported bytes end on the same copied
   * piece as the true ones.
   */
  lemma SpansMapBackExactly(m: SourceMap, source: seq<Byte>, i: nat, j: nat)
    requires Faithful(m, source) && OriginsIncrease(m.pieces, |source|) && i < j <= |m.rewritten|
    ensures var span, range := SpanOf(m.rewritten, i, j), TrueRange(m.rewritten, i, j);
            m.SpanToRewritten(span).Some? &&
            (SoundAnswer(m.MapSqlSpan(span), m.pieces, range.offset, range.End(), Encode(m.rewritten), source) <==>
             LastCopied(m.pieces, m.SpanToRewritten(span).value) == LastCopied(m.pieces, range))
  {
    hide SoundAnswer, LastCopied, Origins, Cover, Tiles, AllCopied, OriginsIncrease;
    ReportedIsToTheLeft(m, i, j);
    ShiftedAnswerExactly(m.pieces, Encode(m.rewritten), source,
                         m.SpanToRewritten(SpanOf(m.rewritten, i, j)).value, TrueRange(m.rewritten, i, j));
  }

  /** The map of a text that was not rewritten. */
  function Identity(body: string, offset: nat): SourceMap {
    SourceMap(body, [Piece(0, ByteLen(body), Some(Span(offset, ByteLen(body))))], LineStarts(body))
  }

  /** With one piece there is only one place to end on, so every span of every text maps back soundly. */
  lemma IdentityMapsSoundly(body: string, offset: nat, source: seq<Byte>, i: nat, j: nat)
    requires offset + |Encode(body)| <= |source| && source[offset..offset + |Encode(body)|] == Encode(body)
    requires i < j <= |body|
    ensures var m, span, range := Identity(body, offset), SpanOf(body, i, j), TrueRange(body, i, j);
            SoundAnswer(m.MapSqlSpan(span), m.pieces, range.offset, range.End(), Encode(body), source)
  {
    var m := Identity(body, offset);
    IdentityIsFaithful(body, offset, source);
    ReportedIsToTheLeft(m, i, j);
    SpansMapBackExactly(m, source, i, j);
    BytesBetween(body, j, |body|);
    assert TouchesCopy(m.pieces[0], m.SpanToRewritten(SpanOf(body, i, j)).value);
    assert TouchesCopy(m.pieces[0], TrueRange(body, i, j));
  }

  lemma IdentityIsFaithful(body: string, offset: nat, source: seq<Byte>)
    requires body != "" && offset + |Encode(body)| <= |source| && source[offset..offset + |Encode(body)|] == Encode(body)
    ensures Faithful(Identity(body, offset), source) && OriginsIncrease(Identity(body, offset).pieces, |source|)
  {
    hide Encode, LineStartsTo;
    ByteAtIsEncodedLength(body, |body|);
    BytesBetween(body, 0, |body|);
    assert body[..|body|] == body && Encode(body)[0..|Encode(body)|] == Encode(body);
    var m := Identity(body, offset);
    assert m.pieces[1..] == [] && Tiles([], |Encode(body)|, |Encode(body)|);
    assert Tiles(m.pieces, 0, |Encode(body)|);
    assert Copied(m.pieces[0], Encode(body), source);
  }
}
